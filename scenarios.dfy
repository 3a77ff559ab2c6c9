/**
 * Two rounds played against the contracts of `MemoryGame` alone, whatever
 * keys the shuffles draw. Every handler is followed by the best-score effect.
 */
module Scenarios {
  import opened Roster
  import opened Game

  /** A roster of two distinct characters: clicking each card once wins, and the reset clears the round. */
  method WinRound(x: ApiCharacter, y: ApiCharacter, draw: nat -> real)
    requires x.id != y.id
  {
    var g := new MemoryGame();
    g.Load(Some([x, y]), draw);
    assert |g.characters| == 2;
    var a, b := g.characters[0], g.characters[1];
    assert a.id == x.id && b.id == y.id;

    var scheduled := g.Click(a, draw);
    assert g.clickedCards == [x.id];
    assert !scheduled && g.gameStatus == Playing;
    g.UpdateBestScore();
    assert g.score == 1 && g.bestScore == 1;

    assert b.id !in g.clickedCards;
    scheduled := g.Click(b, draw);
    assert scheduled && g.gameStatus == YouWin;
    g.UpdateBestScore();
    assert g.score == 2 && g.bestScore == 2;

    g.Reset(draw);
    g.UpdateBestScore();
    assert g.clickedCards == [] && g.score == 0 && g.gameStatus == Playing;
    assert g.bestScore == 2 && |g.cards| == 2;
  }

  /** A roster of two: clicking the same card twice ends the round at once. */
  method RepeatedClickRound(x: ApiCharacter, y: ApiCharacter, draw: nat -> real)
  {
    var g := new MemoryGame();
    g.Load(Some([x, y]), draw);
    var a := g.characters[0];

    assert a.id == x.id;
    var scheduled := g.Click(a, draw);
    assert g.clickedCards == [x.id];
    assert !scheduled;
    g.UpdateBestScore();
    assert g.score == 1 && g.bestScore == 1;

    scheduled := g.Click(a, draw);
    assert scheduled && g.gameStatus == GameOver;
    assert g.clickedCards == [x.id];
    g.UpdateBestScore();
    assert g.score == 1 && g.bestScore == 1;

    g.Reset(draw);
    g.UpdateBestScore();
    assert g.clickedCards == [] && g.score == 0 && g.gameStatus == Playing && g.bestScore == 1;
  }

  /**
   * Two entries of the response with the same id: the first click is fresh
   * but does not win, and clicking the other card counts as a repeat.
   */
  method SharedIdRound(x: ApiCharacter, y: ApiCharacter, draw: nat -> real)
    requires x.id == y.id
  {
    var g := new MemoryGame();
    g.Load(Some([x, y]), draw);
    var a, b := g.characters[0], g.characters[1];
    assert a.id == x.id && b.id == x.id;

    var scheduled := g.Click(a, draw);
    assert g.clickedCards == [x.id] && !scheduled;

    scheduled := g.Click(b, draw);
    assert scheduled && g.gameStatus == GameOver;
  }

  /** A failed load leaves an empty roster and an empty card grid. */
  method FailedLoad(draw: nat -> real)
  {
    var g := new MemoryGame();
    g.Load(None, draw);
    assert g.characters == [] && g.cards == [];
  }
}
