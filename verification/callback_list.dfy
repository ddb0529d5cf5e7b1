/**
 * The listener registry the emitter keeps in `_callbacks` (a `CallbackList` from
 * `./event`, whose code is not part of this model). It is modelled as an ordered
 * sequence of entries with append, removal of the first matching entry and
 * iteration over a copy taken when the iteration starts.
 */
module CallbackLists {
  import opened Wrappers

  /** A registered listener: the callback and the receiver it was bound with. Removal matches the pair. */
  datatype Listener = Listener(callback: nat, thisArg: nat)

  /** The entries a walk over `_callbacks` visits: none while the list does not exist. */
  function Snapshot(callbacks: Option<seq<Listener>>): seq<Listener>
  {
    if callbacks.Some? then callbacks.value else []
  }

  /** Position of the first entry equal to `x`. */
  function FirstIndex(s: seq<Listener>, x: Listener): (i: nat)
    requires x in s
    ensures i < |s| && s[i] == x
    ensures x !in s[..i]
  {
    if s[0] == x then 0
    else
      var j := FirstIndex(s[1..], x);
      assert s[..j + 1] == [s[0]] + s[1..][..j];
      j + 1
  }

  /** `remove(callback, thisArg)`: the first entry equal to `x` goes, the others keep their order. */
  function Remove(s: seq<Listener>, x: Listener): (r: seq<Listener>)
    ensures x !in s ==> r == s
    ensures x in s ==> r == s[..FirstIndex(s, x)] + s[FirstIndex(s, x) + 1..]
  {
    if s == [] then []
    else if s[0] == x then s[1..]
    else
      var rest := Remove(s[1..], x);
      RemoveKeepsHead(s, x, rest);
      [s[0]] + rest
  }

  /** `Remove` takes away exactly one occurrence of `x` when there is one, and nothing else. */
  lemma {:induction false} RemoveDropsOne(s: seq<Listener>, x: Listener)
    ensures multiset(Remove(s, x)) == multiset(s) - multiset{x}
  {
    if s != [] {
      if s[0] == x {
        assert s == [x] + s[1..];
      } else {
        RemoveDropsOne(s[1..], x);
        RemoveKeepsHeadCount(s, x, Remove(s[1..], x));
      }
    }
  }

  /** The step of `Remove` past a head that does not match: the order of what is kept. */
  lemma RemoveKeepsHead(s: seq<Listener>, x: Listener, rest: seq<Listener>)
    requires s != [] && s[0] != x
    requires x !in s[1..] ==> rest == s[1..]
    requires x in s[1..] ==> rest == s[1..][..FirstIndex(s[1..], x)] + s[1..][FirstIndex(s[1..], x) + 1..]
    ensures x !in s ==> [s[0]] + rest == s
    ensures x in s ==> [s[0]] + rest == s[..FirstIndex(s, x)] + s[FirstIndex(s, x) + 1..]
  {
    var t := s[1..];
    if x in s {
      assert x in t;
      var j := FirstIndex(t, x);
      assert FirstIndex(s, x) == j + 1;
      SpliceAfterHead(s, j);
    } else {
      assert s == [s[0]] + t;
    }
  }

  /** Cutting out position `j + 1` of `s` is cutting out position `j` of its tail. */
  lemma SpliceAfterHead(s: seq<Listener>, j: nat)
    requires j + 1 < |s|
    ensures s[..j + 1] + s[j + 2..] == [s[0]] + (s[1..][..j] + s[1..][j + 1..])
  {
    assert s[..j + 1] == [s[0]] + s[1..][..j];
    assert s[j + 2..] == s[1..][j + 1..];
  }

  /** The step of `Remove` past a head that does not match: one occurrence of `x` fewer. */
  lemma RemoveKeepsHeadCount(s: seq<Listener>, x: Listener, rest: seq<Listener>)
    requires s != [] && s[0] != x
    requires multiset(rest) == multiset(s[1..]) - multiset{x}
    ensures multiset([s[0]] + rest) == multiset(s) - multiset{x}
  {
    var t := s[1..];
    assert s == [s[0]] + t;
    var m := multiset(s);
    var n := multiset([s[0]] + rest);
    forall y
      ensures n[y] == (m - multiset{x})[y]
    {
      assert n[y] == multiset{s[0]}[y] + multiset(rest)[y];
      assert m[y] == multiset{s[0]}[y] + multiset(t)[y];
    }
    assert n == m - multiset{x};
  }
}
