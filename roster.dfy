/**
 * The roster of the memory game: the characters returned by the character
 * listing endpoint, cut down to the first eight and projected to the three
 * fields a card shows.
 */
module Roster {

  datatype Option<T> = None | Some(value: T)

  /** One entry of the `characters` array in the endpoint's JSON response. */
  datatype ApiCharacter = ApiCharacter(id: int, name: string, images: seq<string>)

  /**
   * A card of the game. `image` is `None` where the entry had no image, the
   * case in which JavaScript's `images[0]` yields `undefined`.
   */
  datatype Character = Character(id: int, name: string, image: Option<string>)

  /** How many entries of the response make up the roster. */
  const RosterSize: nat := 8

  /** The first image URL of an entry, if there is one. */
  function FirstImage(images: seq<string>): (r: Option<string>)
    ensures r.Some? <==> |images| > 0
    ensures r.Some? ==> r.value == images[0]
  {
    if |images| > 0 then Some(images[0]) else None
  }

  function ToCard(c: ApiCharacter): Character
  {
    Character(c.id, c.name, FirstImage(c.images))
  }

  /**
   * `data.characters.slice(0, 8).map(...)`: the first `RosterSize` entries
   * (all of them when there are fewer), in the order the endpoint sent them.
   */
  function SelectRoster(api: seq<ApiCharacter>): (r: seq<Character>)
    ensures |r| == if |api| < RosterSize then |api| else RosterSize
    ensures |r| <= RosterSize && |r| <= |api|
    ensures forall i :: 0 <= i < |r| ==>
      r[i].id == api[i].id && r[i].name == api[i].name &&
      (|api[i].images| > 0 ==> r[i].image == Some(api[i].images[0])) &&
      (api[i].images == [] ==> r[i].image == None)
  {
    var n := if |api| < RosterSize then |api| else RosterSize;
    seq(n, i requires 0 <= i < n => ToCard(api[i]))
  }

  /** The ids of a sequence of cards, in order. */
  function Ids(cs: seq<Character>): (r: seq<int>)
    ensures |r| == |cs|
    ensures forall i :: 0 <= i < |cs| ==> r[i] == cs[i].id
  {
    seq(|cs|, i requires 0 <= i < |cs| => cs[i].id)
  }
}
