/** The order behind every ranked query: `ORDER BY at DESC, id DESC`, with NULLs first. */
module SortOrder {
  import opened Common

  datatype Key = Key(at: Option<Time>, id: nat)

  /** `a` is listed strictly before `b`. */
  predicate Before(a: Key, b: Key) {
    match (a.at, b.at)
    case (None, Some(_)) => true
    case (Some(_), None) => false
    case (None, None) => a.id > b.id
    case (Some(x), Some(y)) => x > y || (x == y && a.id > b.id)
  }

  predicate Sorted(s: seq<Key>) {
    forall i, j :: 0 <= i < j < |s| ==> Before(s[i], s[j])
  }

  ghost predicate IsFirst(keys: set<Key>, k: Key) {
    k in keys && forall x :: x in keys && x != k ==> Before(k, x)
  }

  lemma {:induction false} SomeFirst(keys: set<Key>) returns (k: Key)
    requires keys != {}
    ensures IsFirst(keys, k)
  {
    var x :| x in keys;
    var rest := keys - {x};
    if rest == {} {
      assert keys == {x};
      k := x;
    } else {
      var first := SomeFirst(rest);
      k := if Before(first, x) then first else x;
      forall y | y in keys && y != k
        ensures Before(k, y)
      {
        if y != x {
          assert y in rest;
        }
      }
    }
  }

  ghost function Elements(s: seq<Key>): set<Key> {
    set k | k in s
  }

  /** The keys in list order. */
  ghost function Listing(keys: set<Key>): (s: seq<Key>)
    ensures Elements(s) == keys
    ensures |s| == |keys|
    ensures Sorted(s)
  {
    if keys == {} then []
    else
      var k := First(keys);
      var rest := Listing(keys - {k});
      ConsListing(keys, k, rest);
      [k] + rest
  }

  ghost function First(keys: set<Key>): (k: Key)
    requires keys != {}
    ensures IsFirst(keys, k)
  {
    assert exists k :: IsFirst(keys, k) by { var k := SomeFirst(keys); }
    var k :| IsFirst(keys, k);
    k
  }

  lemma {:induction false} ConsListing(keys: set<Key>, k: Key, rest: seq<Key>)
    requires IsFirst(keys, k) && Sorted(rest) && Elements(rest) == keys - {k}
    ensures Sorted([k] + rest) && Elements([k] + rest) == keys
  {
    forall i | 0 <= i < |rest|
      ensures Before(k, rest[i])
    {
      assert rest[i] in Elements(rest);
    }
    assert Elements([k] + rest) == {k} + Elements(rest);
  }

  /** There is only one way to list a set of keys. */
  lemma {:induction false} SortedUnique(s: seq<Key>, t: seq<Key>)
    requires Sorted(s) && Sorted(t) && Elements(s) == Elements(t)
    ensures s == t
  {
    if s == [] || t == [] {
      assert forall r: seq<Key> :: r != [] ==> r[0] in Elements(r);
    } else {
      assert s[0] in Elements(s) && t[0] in Elements(t);
      assert s[0] == t[0];
      TailElements(s);
      TailElements(t);
      SortedUnique(s[1..], t[1..]);
      assert s == [s[0]] + s[1..] && t == [t[0]] + t[1..];
    }
  }

  lemma {:induction false} TailElements(s: seq<Key>)
    requires s != [] && Sorted(s)
    ensures Sorted(s[1..]) && Elements(s[1..]) == Elements(s) - {s[0]}
  {
    forall k | k in Elements(s) - {s[0]}
      ensures k in s[1..]
    {
      var i :| 0 <= i < |s| && s[i] == k;
      assert s[1..][i - 1] == k;
    }
  }

  /** A sorted list is the listing of its elements, so it is as long as their set. */
  lemma {:induction false} SortedIsListing(s: seq<Key>)
    requires Sorted(s)
    ensures s == Listing(Elements(s))
    ensures |Elements(s)| == |s|
  {
    SortedUnique(s, Listing(Elements(s)));
  }

  ghost function After(keys: set<Key>, c: Key): set<Key> {
    set k | k in keys && Before(c, k)
  }

  ghost function UpTo(keys: set<Key>, c: Key): set<Key> {
    set k | k in keys && !Before(c, k)
  }

  /** Position `i` cuts the listing into the keys up to the one there and the keys after it. */
  lemma {:induction false} ListingCut(keys: set<Key>, i: nat)
    requires i < |keys|
    ensures
      var l := Listing(keys);
      && Elements(l[..i + 1]) == UpTo(keys, l[i])
      && |UpTo(keys, l[i])| == i + 1
      && l[i + 1..] == Listing(After(keys, l[i]))
  {
    var l := Listing(keys);
    SortedCut(l, i);
    SortedIsListing(l[..i + 1]);
    SortedIsListing(l[i + 1..]);
  }

  lemma {:induction false} SortedCut(l: seq<Key>, i: nat)
    requires Sorted(l) && i < |l|
    ensures Elements(l[..i + 1]) == UpTo(Elements(l), l[i])
    ensures Elements(l[i + 1..]) == After(Elements(l), l[i])
  {
    forall k | k in l
      ensures k in l[..i + 1] <==> !Before(l[i], k)
      ensures k in l[i + 1..] <==> Before(l[i], k)
    {
      var j :| 0 <= j < |l| && l[j] == k;
      if j <= i {
        assert l[..i + 1][j] == k;
      } else {
        assert l[i + 1..][j - i - 1] == k;
      }
    }
  }

  /** An upward-closed subset is a prefix of the listing. */
  lemma {:induction false} UpwardIsPrefix(keys: set<Key>, top: set<Key>)
    requires top <= keys
    requires forall a, b | a in keys && b in top :: Before(a, b) ==> a in top
    ensures |top| <= |keys|
    ensures Listing(keys)[..|top|] == Listing(top)
    ensures forall i :: 0 <= i < |keys| ==> (Listing(keys)[i] in top <==> i < |top|)
  {
    var l := Listing(keys);
    var n := TopOf(l, top);
    SortedIsListing(l[..n]);
  }

  lemma {:induction false} TopOf(l: seq<Key>, top: set<Key>) returns (n: nat)
    requires Sorted(l) && top <= Elements(l)
    requires forall a, b | a in Elements(l) && b in top :: Before(a, b) ==> a in top
    ensures n <= |l| && Elements(l[..n]) == top
    ensures forall i :: 0 <= i < |l| ==> (l[i] in top <==> i < n)
  {
    assert forall i :: 0 <= i < |l| ==> l[i] in Elements(l);
    n := 0;
    while n < |l| && l[n] in top
      invariant n <= |l|
      invariant forall i :: 0 <= i < n ==> l[i] in top
    {
      n := n + 1;
    }
    if n < |l| {
      assert forall i :: n < i < |l| ==> Before(l[n], l[i]);
    }
    forall k | k in top
      ensures k in l[..n]
    {
      assert k in Elements(l);
      var j :| 0 <= j < |l| && l[j] == k;
      assert l[..n][j] == k;
    }
  }
}
