/**
 * The room-metadata records of the REST side (app/api/room/model.ts): a room as the HTTP API
 * stores it, and the errors its layers throw.
 */
module RoomModel {

  /** A room record: backend id, user-chosen handle, creator, creation time and member ids. */
  datatype MetaRoom = MetaRoom(id: string, handle: string, createdBy: string, createdAt: int, participants: seq<string>)

  /**
   * What a layer can throw: the three room errors, a plain `Error` (the request validators and
   * the JSON body parser throw those), and a thrown value that is not an `Error` at all.
   */
  datatype Failure =
    | RoomValidation(message: string)
    | RoomAlreadyExists(message: string)
    | RoomNotFound(message: string)
    | PlainError(message: string)
    | NonError

  /** A list without repeated elements. */
  predicate NoDuplicates<T(==)>(xs: seq<T>) {
    forall i, j | 0 <= i < j < |xs| :: xs[i] != xs[j]
  }

  /** `xs.indexOf(x)`: the first position holding `x`, or -1. */
  function IndexOf<T(==)>(xs: seq<T>, x: T): (i: int)
    ensures -1 <= i < |xs|
    ensures i == -1 <==> x !in xs
    ensures i >= 0 ==> xs[i] == x && x !in xs[..i]
  {
    if xs == [] then -1
    else if xs[0] == x then 0
    else
      var j := IndexOf(xs[1..], x);
      assert xs[1..][..if j < 0 then 0 else j] == xs[1..if j < 0 then 1 else j + 1];
      if j < 0 then -1 else j + 1
  }

  /** `splice(indexOf(x), 1)` guarded by `index > -1`: drop the first occurrence of `x`, if any. */
  function RemoveFirst<T(==)>(xs: seq<T>, x: T): (r: seq<T>)
    ensures x !in xs ==> r == xs
    ensures x in xs ==> |r| == |xs| - 1 && multiset(r) == multiset(xs) - multiset{x}
    ensures x in xs ==> exists i | 0 <= i < |xs| :: xs[i] == x && x !in xs[..i] && r == xs[..i] + xs[i + 1..]
  {
    var i := IndexOf(xs, x);
    if i < 0 then xs
    else
      assert xs == xs[..i] + [x] + xs[i + 1..];
      xs[..i] + xs[i + 1..]
  }

  /** Cutting position `i` out of a list shifts every later element down by one. */
  lemma SpliceShifts<T>(xs: seq<T>, i: int)
    requires 0 <= i < |xs|
    ensures var r := xs[..i] + xs[i + 1..];
      && |r| == |xs| - 1
      && (forall k | 0 <= k < i :: r[k] == xs[k])
      && (forall k | i <= k < |r| :: r[k] == xs[k + 1])
  {
  }

  /** Removing the first occurrence keeps a duplicate-free list duplicate-free and removes `x` entirely. */
  lemma RemoveFirstNoDuplicates<T>(xs: seq<T>, x: T)
    requires NoDuplicates(xs)
    ensures NoDuplicates(RemoveFirst(xs, x)) && x !in RemoveFirst(xs, x)
  {
    if x in xs {
      var i := IndexOf(xs, x);
      var r := RemoveFirst(xs, x);
      assert r == xs[..i] + xs[i + 1..];
      SpliceShifts(xs, i);
      forall a, b | 0 <= a < b < |r|
        ensures r[a] != r[b]
      {
        var a' := if a < i then a else a + 1;
        var b' := if b < i then b else b + 1;
        assert r[a] == xs[a'] && r[b] == xs[b'];
      }
      forall k | 0 <= k < |r|
        ensures r[k] != x
      {
        var k' := if k < i then k else k + 1;
        assert r[k] == xs[k'];
      }
    }
  }
}
