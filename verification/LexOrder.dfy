/** Lexicographic order of integer sequences: byte strings (`bytes.Compare`, database keys) and
    log positions. */
module LexOrder {

  predicate Less(a: seq<int>, b: seq<int>) {
    b != [] && (a == [] || a[0] < b[0] || (a[0] == b[0] && Less(a[1..], b[1..])))
  }

  lemma Irreflexive(a: seq<int>)
    ensures !Less(a, a)
  {
  }

  lemma {:induction false} Total(a: seq<int>, b: seq<int>)
    ensures Less(a, b) || Less(b, a) || a == b
  {
    if a != [] && b != [] && a[0] == b[0] {
      Total(a[1..], b[1..]);
      assert a == [a[0]] + a[1..] && b == [b[0]] + b[1..];
    }
  }

  lemma {:induction false} Transitive(a: seq<int>, b: seq<int>, c: seq<int>)
    requires Less(a, b) && Less(b, c)
    ensures Less(a, c)
  {
    if a != [] && a[0] == b[0] == c[0] {
      Transitive(a[1..], b[1..], c[1..]);
    }
  }

  lemma Asymmetric(a: seq<int>, b: seq<int>)
    requires Less(a, b)
    ensures !Less(b, a)
  {
    if Less(b, a) {
      Transitive(a, b, a);
      Irreflexive(a);
    }
  }

  /** Comparing two extensions of one prefix compares the extensions. */
  lemma {:induction false} CommonPrefix(p: seq<int>, a: seq<int>, b: seq<int>)
    ensures Less(p + a, p + b) <==> Less(a, b)
  {
    if p == [] {
      assert p + a == a && p + b == b;
    } else {
      assert (p + a)[1..] == p[1..] + a && (p + b)[1..] == p[1..] + b;
      CommonPrefix(p[1..], a, b);
    }
  }

  ghost predicate Ascending(s: seq<seq<int>>) {
    forall i, j :: 0 <= i < j < |s| ==> Less(s[i], s[j])
  }

  /** A set has one strictly ascending enumeration. */
  lemma {:induction false} AscendingUnique(s: seq<seq<int>>, t: seq<seq<int>>)
    requires Ascending(s) && Ascending(t)
    requires forall x :: x in s <==> x in t
    ensures s == t
  {
    assert t == [] || t[0] in t;
    if s != [] {
      assert s[0] in t;
      if s[0] != t[0] {
        assert t[0] in s;
        var i :| 0 <= i < |t| && t[i] == s[0];
        var j :| 0 <= j < |s| && s[j] == t[0];
        Asymmetric(s[0], t[0]);
        assert false;
      }
      forall x ensures x in s[1..] <==> x in t[1..] {
        Irreflexive(x);
        assert forall y :: y in s <==> y == s[0] || y in s[1..];
        assert forall y :: y in t <==> y == t[0] || y in t[1..];
        if x == s[0] {
          assert x !in s[1..] && x !in t[1..];
        }
      }
      AscendingUnique(s[1..], t[1..]);
      assert s == [s[0]] + s[1..] && t == [t[0]] + t[1..];
    }
  }

  function Insert(x: seq<int>, s: seq<seq<int>>): (r: seq<seq<int>>)
    requires Ascending(s) && x !in s
    ensures Ascending(r) && |r| == |s| + 1
    ensures forall y :: y in r <==> y == x || y in s
  {
    if s == [] then [x]
    else
      Total(x, s[0]);
      if Less(x, s[0]) then (
        assert forall i :: 0 < i < |s| ==> Less(x, s[i]) by {
          forall i | 0 < i < |s| ensures Less(x, s[i]) { Transitive(x, s[0], s[i]); }
        }
        [x] + s)
      else
        var rest := Insert(x, s[1..]);
        assert forall i :: 0 <= i < |rest| ==> rest[i] in rest;
        [s[0]] + rest
  }

  /** The strictly ascending enumeration of a set. */
  ghost function Enumerate(keys: set<seq<int>>): (r: seq<seq<int>>)
    ensures Ascending(r) && forall x :: x in r <==> x in keys
  {
    if keys == {} then [] else
    var x :| x in keys;
    Insert(x, Enumerate(keys - {x}))
  }
}
