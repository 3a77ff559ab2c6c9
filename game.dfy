/**
 * The state machine of the memory game's `App` component: the roster, the
 * card order on screen, the ids clicked in this round, the score, the best
 * score and the status message, changed by card clicks, by the delayed reset
 * of a round and by the effect that keeps the best score up to date.
 *
 * Each handler is one atomic update of the component state. The reset that
 * the source schedules with a 2000 ms timer is the separate method `Reset`;
 * `Click` reports whether it scheduled one. Clicks that arrive before the
 * scheduled reset fires are processed like any other click, since the source
 * does not block them.
 */
module Game {
  import opened Roster
  import opened Shuffle

  /** The three values `gameStatus` takes. */
  datatype Status = Playing | GameOver | YouWin

  /** The message text the source stores for each status. */
  function Message(s: Status): (m: string)
    ensures m == "" <==> s == Playing
  {
    match s
    case Playing => ""
    case GameOver => "Game is over"
    case YouWin => "You Win"
  }

  /** Distinct statuses have distinct messages, so `Status` loses nothing of the string. */
  lemma MessageInjective(s: Status, t: Status)
    ensures Message(s) == Message(t) ==> s == t
  {
  }

  /** No id occurs twice. */
  predicate NoDuplicates(s: seq<int>)
  {
    forall i, j :: 0 <= i < j < |s| ==> s[i] != s[j]
  }

  /** The set of ids in `s` has as many members as `s` has entries. */
  lemma {:induction false} DistinctCount(s: seq<int>)
    requires NoDuplicates(s)
    ensures |set x | x in s| == |s|
  {
    if s != [] {
      DistinctCount(s[1..]);
      assert (set x | x in s) == {s[0]} + (set x | x in s[1..]);
      assert s[0] !in (set x | x in s[1..]);
    }
  }

  /** Every clicked id is the id of a card of the roster. */
  predicate FromRoster(clicked: seq<int>, roster: seq<Character>)
  {
    forall k :: 0 <= k < |clicked| ==> clicked[k] in Ids(roster)
  }

  /** Every card of the roster has its id among the clicked ids. */
  predicate EveryCardClicked(clicked: seq<int>, roster: seq<Character>)
  {
    forall c :: c in roster ==> c.id in clicked
  }

  /**
   * The source declares a win when the number of clicked ids equals the
   * size of the roster. When every clicked id is a roster id, no id was
   * clicked twice and the roster ids are distinct, that is exactly the
   * moment at which every card of the roster has been clicked.
   */
  lemma WinExactlyWhenAllClicked(clicked: seq<int>, roster: seq<Character>)
    requires NoDuplicates(clicked) && NoDuplicates(Ids(roster)) && FromRoster(clicked, roster)
    ensures |clicked| == |roster| <==> EveryCardClicked(clicked, roster)
  {
    var a := set x | x in clicked;
    var b := set x | x in Ids(roster);
    DistinctCount(clicked);
    DistinctCount(Ids(roster));
    assert a <= b;
    if |clicked| == |roster| {
      assert |b| == |a| + |b - a|;
      assert b - a == {};
      forall c | c in roster
        ensures c.id in clicked
      {
        var k :| 0 <= k < |roster| && roster[k] == c;
        assert Ids(roster)[k] == c.id;
        assert c.id in b;
      }
    }
    if EveryCardClicked(clicked, roster) {
      forall y | y in b
        ensures y in a
      {
        var k :| 0 <= k < |roster| && Ids(roster)[k] == y;
        assert roster[k] in roster;
      }
      assert a == b;
    }
  }

  /** A sequence has at most as many distinct ids as entries, and fewer when an id repeats. */
  lemma {:induction false} DistinctCountBound(s: seq<int>)
    ensures |set x | x in s| <= |s|
    ensures !NoDuplicates(s) ==> |set x | x in s| < |s|
  {
    if s != [] {
      DistinctCountBound(s[1..]);
      var rest := set x | x in s[1..];
      assert (set x | x in s) == {s[0]} + rest;
      if s[0] !in rest && !NoDuplicates(s) {
        var i, j :| 0 <= i < j < |s| && s[i] == s[j];
        assert s[j] == s[1..][j - 1];
        assert s[i] == s[1..][i - 1];
        assert !NoDuplicates(s[1..]);
      }
    }
  }

  /**
   * When two roster cards share an id, the history (roster ids, no repeats)
   * always stays shorter than the roster: the second of the two cards counts
   * as a repeat, so the win test can never hold and the round cannot be won.
   */
  lemma RepeatedRosterIdBlocksWin(clicked: seq<int>, roster: seq<Character>)
    requires NoDuplicates(clicked) && FromRoster(clicked, roster) && !NoDuplicates(Ids(roster))
    ensures |clicked| < |roster|
  {
    var a := set x | x in clicked;
    var b := set x | x in Ids(roster);
    DistinctCount(clicked);
    DistinctCountBound(Ids(roster));
    assert a <= b;
    assert |b| == |a| + |b - a|;
  }

  /**
   * A fresh click on a card from the screen: the card belongs to the
   * roster, so its id is a roster id, and the new count reaches the roster
   * size exactly when the click completes the roster.
   */
  lemma FreshClickFromScreen(clicked: seq<int>, roster: seq<Character>, cards: seq<Character>, card: Character)
    requires FromRoster(clicked, roster) && NoDuplicates(clicked) && card.id !in clicked
    requires multiset(cards) == multiset(roster) && card in cards
    ensures FromRoster(clicked + [card.id], roster)
    ensures NoDuplicates(Ids(roster)) ==>
      (|clicked| + 1 == |roster| <==> EveryCardClicked(clicked + [card.id], roster))
  {
    var next := clicked + [card.id];
    assert card in multiset(roster);
    var i :| 0 <= i < |roster| && roster[i] == card;
    assert Ids(roster)[i] == card.id;
    assert FromRoster(next, roster);
    if NoDuplicates(Ids(roster)) {
      assert NoDuplicates(next);
      WinExactlyWhenAllClicked(next, roster);
    }
  }

  /** The component state of `App`. */
  class MemoryGame {
    var characters: seq<Character>
    var cards: seq<Character>
    var clickedCards: seq<int>
    var score: nat
    var bestScore: nat
    var gameStatus: Status

    /**
     * The score is the number of ids clicked this round, no id was clicked
     * twice and the cards on screen are a reordering of the roster.
     */
    ghost predicate Valid()
      reads this
    {
      && score == |clickedCards|
      && NoDuplicates(clickedCards)
      && multiset(cards) == multiset(characters)
    }

    /** The initial values of the component's `useState` hooks. */
    constructor ()
      ensures Valid()
      ensures characters == [] && cards == [] && clickedCards == []
      ensures score == 0 && bestScore == 0 && gameStatus == Playing
    {
      characters := [];
      cards := [];
      clickedCards := [];
      score := 0;
      bestScore := 0;
      gameStatus := Playing;
    }

    /**
     * The end of `fetchCharacters`: `response` is the parsed list of
     * characters, or `None` when the request or the parsing failed, in which
     * case the state is left as it was.
     */
    method Load(response: Option<seq<ApiCharacter>>, draw: nat -> real)
      requires Valid()
      modifies this`characters, this`cards
      ensures Valid()
      ensures response.None? ==> characters == old(characters) && cards == old(cards)
      ensures response.Some? ==>
        characters == SelectRoster(response.value) &&
        cards == ShuffleArray(characters, draw)
    {
      if response.Some? {
        var selected := SelectRoster(response.value);
        characters := selected;
        cards := ShuffleArray(selected, draw);
      }
    }

    /**
     * `handleCardClick`. A repeated id ends the round with "Game is over".
     * A fresh id is appended and the score becomes the new count; the round
     * is won when the count reaches the roster size, and otherwise the cards
     * on screen are reshuffled. `resetScheduled` says whether the handler
     * called `resetGame`.
     */
    method Click(card: Character, draw: nat -> real) returns (resetScheduled: bool)
      requires Valid()
      modifies this`cards, this`clickedCards, this`score, this`gameStatus
      ensures Valid()
      ensures characters == old(characters) && bestScore == old(bestScore)
      ensures card.id in old(clickedCards) ==>
        && gameStatus == GameOver
        && clickedCards == old(clickedCards) && score == old(score) && cards == old(cards)
        && resetScheduled
      ensures card.id !in old(clickedCards) ==>
        && clickedCards == old(clickedCards) + [card.id]
        && score == old(score) + 1
        && resetScheduled == (|clickedCards| == |characters|)
        && (resetScheduled ==> gameStatus == YouWin && cards == old(cards))
        && (!resetScheduled ==> gameStatus == old(gameStatus) && cards == ShuffleArray(old(cards), draw))
      ensures FromRoster(old(clickedCards), characters) && card in old(cards) ==>
        FromRoster(clickedCards, characters)
      ensures && FromRoster(old(clickedCards), characters) && card in old(cards)
              && NoDuplicates(Ids(characters)) && card.id !in old(clickedCards)
              ==> (resetScheduled <==> EveryCardClicked(clickedCards, characters))
    {
      if card.id in clickedCards {
        gameStatus := GameOver;
        resetScheduled := true;
        return;
      }
      if FromRoster(clickedCards, characters) && card in cards {
        FreshClickFromScreen(clickedCards, characters, cards, card);
      }
      var newClickedCards := clickedCards + [card.id];
      assert NoDuplicates(newClickedCards);
      clickedCards := newClickedCards;
      score := |newClickedCards|;
      if |newClickedCards| == |characters| {
        gameStatus := YouWin;
        resetScheduled := true;
      } else {
        cards := ShuffleArray(cards, draw);
        resetScheduled := false;
      }
    }

    /**
     * The timer callback of `resetGame`: a fresh shuffle of the roster,
     * nothing clicked, score 0 and no status message. The roster and the
     * best score are kept.
     */
    method Reset(draw: nat -> real)
      requires Valid()
      modifies this`cards, this`clickedCards, this`score, this`gameStatus
      ensures Valid()
      ensures cards == ShuffleArray(old(characters), draw)
      ensures clickedCards == [] && score == 0 && gameStatus == Playing
      ensures characters == old(characters) && bestScore == old(bestScore)
      ensures FromRoster(clickedCards, characters)
    {
      var shuffled := ShuffleArray(characters, draw);
      cards, clickedCards, score, gameStatus := shuffled, [], 0, Playing;
    }

    /**
     * The effect on `[score, bestScore]`: the best score is raised to the
     * score when the score is higher, and otherwise left alone.
     */
    method UpdateBestScore()
      requires Valid()
      modifies this`bestScore
      ensures Valid()
      ensures bestScore >= score && bestScore >= old(bestScore)
      ensures bestScore == if score > old(bestScore) then score else old(bestScore)
    {
      if score > bestScore {
        bestScore := score;
      }
    }
  }
}
