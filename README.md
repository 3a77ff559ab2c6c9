# Naruto memory game: the game state machine in Dafny

The memory game shows a grid of character cards. The player clicks cards one
at a time and must never click the same card twice in a round. This project
models the logic of the game's single React component, `App` in
`src/App.jsx`:

- **Shuffle** (`shuffle.dfy`, module `Shuffle`): `shuffleArray`. Each element
  gets a random sort key, the pairs are sorted by key, and the keys are
  dropped again. The random numbers become a parameter `draw: nat -> real`:
  element `i` gets the key `draw(i)`. The sort is stable, as
  `Array.prototype.sort` is.
- **Roster** (`roster.dfy`, module `Roster`): the projection in
  `fetchCharacters`. It takes the first eight entries of the response and
  keeps the `id`, the `name` and the first image of each.
- **Game** (`game.dfy`, module `Game`): the component state as the class
  `MemoryGame`. Its fields are `characters`, `cards`, `clickedCards`, `score`,
  `bestScore` and `gameStatus`. There is one method per state change:
  - `Load`: the end of the fetch.
  - `Click`: `handleCardClick`.
  - `Reset`: the timer callback of `resetGame`.
  - `UpdateBestScore`: the effect on `score` and `bestScore`.

  The object invariant `Valid()` says three things. The score is the number
  of clicked ids. No id was clicked twice. The cards on screen are a
  reordering of the roster.
- **Scenarios** (`scenarios.dfy`): four short games played against the
  contracts alone. A two-card round is won and then reset. A repeated click
  ends a round. Two cards with the same id make the second click a repeat.
  A failed load leaves an empty grid.

Each handler is one atomic update. The best-score effect is a separate step
that runs after a handler. A click that arrives between the end of a round
and the delayed reset is processed like any other click, because the source
does not block it.

The comment at `src/App.jsx:39` says the first 6 entries are kept, but the
code slices 8. The model follows the code (`RosterSize == 8`).

Cards are told apart by id only (`clickedCards.includes(card.id)` at
`src/App.jsx:56`). If two of the first eight entries of the response share an
id, the second of those cards counts as a repeat, so the click count can
never reach the roster size and such a round can never be won
(`RepeatedRosterIdBlocksWin`). The endpoint is not known to send such lists,
so the model keeps the source's behaviour and states the win facts under the
condition that the roster ids are distinct.

## Model

| member | source | states |
|---|---|---|
| `Shuffle.ShuffleArray` | src/App.jsx:7-12 | the result has the same length and the same multiset of elements as the input; the input is a value and stays as it was |
| `Shuffle.ShuffleWithAscendingDraws` | src/App.jsx:7-12 | when the keys are drawn in ascending order, the shuffle returns its input unchanged, so the order comes from the keys alone |
| `Shuffle.ShuffleFollowsKeys` | src/App.jsx:7-12 | the result is the values of a key-sorted reordering of the decorated input |
| `Shuffle.Decorate` | src/App.jsx:9 | decorating keeps the length: one key per element |
| `Shuffle.DecorateAt` | src/App.jsx:9 | element `i` is paired with the `i`-th draw |
| `Shuffle.Values` | src/App.jsx:11 | dropping the keys keeps the length |
| `Shuffle.DecoratedValues` | src/App.jsx:9-11 | decorating and then dropping the keys gives back the input |
| `Shuffle.InsertByKeyPermutes` | src/App.jsx:10 | inserting one pair adds exactly that pair to the multiset |
| `Shuffle.InsertByKeyValues` | src/App.jsx:10-11 | inserting one pair adds exactly its value to the multiset of values |
| `Shuffle.InsertByKeyAtLeast` | src/App.jsx:10 | inserting keeps a lower bound on all keys |
| `Shuffle.InsertByKeySorted` | src/App.jsx:10 | inserting into a key-sorted sequence keeps it key-sorted |
| `Shuffle.SortByKey` | src/App.jsx:10 | the sort by `a.sort - b.sort` yields ascending keys and keeps the length |
| `Shuffle.SortByKeyPermutes` | src/App.jsx:10 | the sort only reorders: same multiset of pairs |
| `Shuffle.SortByKeyValues` | src/App.jsx:10-11 | the sort keeps the multiset of values |
| `Shuffle.SortByKeyOfSorted` | src/App.jsx:10 | sorting a sequence whose keys are already ascending changes nothing |
| `Roster.FirstImage` | src/App.jsx:43 | the image is `images[0]` when there is one, and is missing (`undefined`) exactly when `images` is empty |
| `Roster.SelectRoster` | src/App.jsx:40-44 | the roster has `min(8, n)` entries, where `n` is the response length; entry `i` has the id and name of response entry `i` and its first image |
| `Game.Message` | src/App.jsx:57-80 | the stored message is the empty string exactly for the in-play status, so a round has ended exactly when the message is not empty |
| `Game.MessageInjective` | src/App.jsx:57-80 | the three statuses have three different messages |
| `Game.DistinctCount` | src/App.jsx:56-64 | a click history without repeats has as many distinct ids as entries |
| `Game.DistinctCountBound` | src/App.jsx:56-67 | a sequence of ids has at most as many distinct ids as entries, and strictly fewer when an id repeats |
| `Game.RepeatedRosterIdBlocksWin` | src/App.jsx:56-68 | when two roster cards share an id, a history of roster ids without repeats is always shorter than the roster, so the win test never holds |
| `Game.WinExactlyWhenAllClicked` | src/App.jsx:67-68 | if the clicked ids are roster ids without repeats and the roster ids are distinct, then the win test (clicked count equals roster size) holds exactly when every roster card has been clicked |
| `Game.FreshClickFromScreen` | src/App.jsx:63-68 | a fresh click on a card from the screen adds a roster id; the new count equals the roster size exactly when the roster is complete |
| `Game.MemoryGame.constructor` | src/App.jsx:15-20 | the initial state: empty roster, cards and history, both scores 0, empty status; `Valid()` holds |
| `Game.MemoryGame.Load` | src/App.jsx:40-50 | on success the roster is the projection of the response and the cards are a shuffle of it; on failure both stay as they were; `Valid()` is kept |
| `Game.MemoryGame.Click` | src/App.jsx:54-73 | a repeated id sets "Game is over", leaves history, score and cards unchanged and schedules a reset. A fresh id is appended and the score becomes the new count. Then either "You Win" is set, the cards are kept and a reset is scheduled (count equals roster size), or the cards are reshuffled and the status is kept. `Valid()` is kept (score equals count, no repeats) and roster and best score are untouched. When the id is fresh, the card came from the screen, the old history holds only roster ids and the roster ids are distinct, the reset is scheduled exactly when every roster card has been clicked |
| `Game.MemoryGame.Reset` | src/App.jsx:75-82 | empty history, score 0, empty status, cards a fresh shuffle of the roster; the roster and the best score are kept |
| `Game.MemoryGame.UpdateBestScore` | src/App.jsx:28-32 | the best score becomes the larger of itself and the score: afterwards it is at least the score, it never decreases, and it changes only when the score was higher |

## Left out

- Network and loading: `fetch`, `response.json()`, the `loading` flag, the loading image and the `console.error` call (src/App.jsx:34-52, 84-91) are I/O. `Load` receives the parsed list, or `None` for a failure.
- The 2000 ms delay of `resetGame` (src/App.jsx:75-82) is not modelled. `Click` returns whether it scheduled a reset, and `Reset` is an explicit step that may run at any point. The source never cancels a scheduled reset: every click that ends a round schedules one more, and an older pending reset can clear a round that started after it. The model allows this, since nothing ties a `Reset` to the click that scheduled it.
- React hook semantics are not modelled: batched `setState`, stale closures and effect scheduling (src/App.jsx:15-32). Each handler is one atomic update. The timer callback in the source captures the roster of the click that scheduled it, while `Reset` reads the current roster. The two agree because the roster does not change after loading.
- ShuffleArray: `Math.random` is replaced by the parameter `draw`, so the model says nothing about the distribution of the orders. Keys are reals rather than floating-point numbers; only their order matters.
- `gameStatus` is the datatype `Status`. `Message` maps it to the exact strings the source stores (`""`, `"Game is over"`, `"You Win"`), and `MessageInjective` shows the mapping loses nothing.
- Rendering is not modelled: the JSX, the CSS and the fallback text "Click each character only once" (src/App.jsx:93-121).
- Click: the card is not required to be on screen, as in the source. The facts that need it (the new id is a roster id, a win means the roster is complete) are stated under that condition.
- Character ids are modelled as integers. The response's other fields are ignored, as in the source.
