/**
 * The few pieces of PHP's semantics that the mailer depends on: header
 * values and the `isset` test on them, ordered string-keyed arrays of
 * headers with `unset`, `empty()` on strings, and `trim`.
 */
module Php {

  /** A value stored in a headers array: a header text, a boolean flag or null. */
  datatype Value = Null | Flag(b: bool) | Text(s: string)

  /** `isset($a[$k])` holds when the key is present and its value is not null. */
  predicate IsSet(v: Value) {
    !v.Null?
  }

  /** PHP's conversion of a value to string, as done when a value reaches a string function. */
  function AsString(v: Value): (s: string)
    ensures v.Text? ==> s == v.s
    ensures !IsSet(v) ==> s == ""
    ensures v == Flag(true) ==> s == "1"
    ensures v == Flag(false) ==> s == ""
  {
    match v
    case Null => ""
    case Flag(b) => if b then "1" else ""
    case Text(t) => t
  }

  /** `empty($s)` on a string: true for "" and for "0". */
  predicate EmptyString(s: string) {
    s == "" || s == "0"
  }

  /** One key => value pair of a headers array. */
  datatype Header = Header(name: string, value: Value)

  /** A PHP array never holds the same key twice. */
  ghost predicate DistinctNames(hs: seq<Header>) {
    forall i, j :: 0 <= i < j < |hs| ==> hs[i].name != hs[j].name
  }

  /** `$hs[$k]`, reading an absent key as null. */
  function Get(hs: seq<Header>, k: string): (v: Value)
    ensures IsSet(v) ==> Header(k, v) in hs
    ensures forall h :: h in hs && h.name == k && DistinctNames(hs) ==> v == h.value
  {
    if hs == [] then Null
    else if hs[0].name == k then hs[0].value
    else Get(hs[1..], k)
  }

  /** `unset($hs[$k])`: the array without key `k`, the others kept in order. */
  function Unset(hs: seq<Header>, k: string): seq<Header> {
    if hs == [] then []
    else (if hs[0].name == k then [] else [hs[0]]) + Unset(hs[1..], k)
  }

  /** What `unset` keeps: exactly the headers with other names, and distinct names stay distinct. */
  lemma {:induction false} UnsetMembers(hs: seq<Header>, k: string)
    ensures forall h :: h in Unset(hs, k) <==> h in hs && h.name != k
    ensures DistinctNames(hs) ==> DistinctNames(Unset(hs, k))
  {
    UnsetIn(hs, k);
    if DistinctNames(hs) {
      UnsetDistinct(hs, k);
    }
  }

  /** `unset` keeps exactly the headers with other names. */
  lemma {:induction false} UnsetIn(hs: seq<Header>, k: string)
    ensures forall h :: h in Unset(hs, k) <==> h in hs && h.name != k
  {
    if hs != [] {
      var tail := hs[1..];
      UnsetFirst(hs, k, hs[0], tail);
      UnsetIn(tail, k);
      assert hs == [hs[0]] + tail;
    }
  }

  /** `unset` on an array with distinct names leaves distinct names. */
  lemma {:induction false} UnsetDistinct(hs: seq<Header>, k: string)
    requires DistinctNames(hs)
    ensures DistinctNames(Unset(hs, k))
  {
    if hs != [] {
      var tail := hs[1..];
      var head := if hs[0].name == k then [] else [hs[0]];
      UnsetFirst(hs, k, hs[0], tail);
      assert DistinctNames(tail) by {
        forall i, j | 0 <= i < j < |tail| ensures tail[i].name != tail[j].name {
          assert tail[i] == hs[i + 1] && tail[j] == hs[j + 1];
        }
      }
      UnsetDistinct(tail, k);
      var r, rest := Unset(hs, k), Unset(tail, k);
      assert r == head + rest;
      forall i, j | 0 <= i < j < |r| ensures r[i].name != r[j].name {
        if head != [] && i == 0 {
          var m := UnsetFrom(tail, k, j - 1);
          assert r[j] == tail[m] == hs[m + 1];
        } else {
          assert r[i] == rest[i - |head|] && r[j] == rest[j - |head|];
        }
      }
    }
  }

  /** Each header `unset` keeps comes from some position `m` of the array. */
  lemma {:induction false} UnsetFrom(hs: seq<Header>, k: string, q: nat) returns (m: nat)
    requires q < |Unset(hs, k)|
    ensures m < |hs| && Unset(hs, k)[q] == hs[m]
    decreases |hs|
  {
    assert hs != [];
    var tail := hs[1..];
    var head := if hs[0].name == k then [] else [hs[0]];
    UnsetFirst(hs, k, hs[0], tail);
    if head != [] && q == 0 {
      m := 0;
    } else {
      var m' := UnsetFrom(tail, k, q - |head|);
      m := m' + 1;
    }
  }

  /** `unset` on an array whose first header is `h`, followed by `rest`. */
  lemma UnsetFirst(hs: seq<Header>, k: string, h: Header, rest: seq<Header>)
    requires hs != [] && hs[0] == h && hs[1..] == rest
    ensures Unset(hs, k) == (if h.name == k then [] else [h]) + Unset(rest, k)
  {
  }

  /** A kept header is found in `unset`'s result, at position `q`. */
  lemma {:induction false} UnsetKeeps(hs: seq<Header>, k: string, j: nat) returns (q: nat)
    requires j < |hs| && hs[j].name != k
    ensures q <= j && q < |Unset(hs, k)| && Unset(hs, k)[q] == hs[j]
    decreases j
  {
    var tail := hs[1..];
    var head := if hs[0].name == k then [] else [hs[0]];
    UnsetFirst(hs, k, hs[0], tail);
    if j == 0 {
      q := 0;
    } else {
      assert tail[j - 1] == hs[j];
      var q' := UnsetKeeps(tail, k, j - 1);
      q := |head| + q';
    }
  }

  /** `unset` keeps the other headers in their order: two kept headers appear in `unset`'s result in the same order, at `p` and `q`. */
  lemma {:induction false} UnsetOrder(hs: seq<Header>, k: string, i: nat, j: nat) returns (p: nat, q: nat)
    requires i < j < |hs| && hs[i].name != k && hs[j].name != k
    ensures p < q < |Unset(hs, k)| && Unset(hs, k)[p] == hs[i] && Unset(hs, k)[q] == hs[j]
    decreases i
  {
    var tail := hs[1..];
    var head := if hs[0].name == k then [] else [hs[0]];
    UnsetFirst(hs, k, hs[0], tail);
    assert tail[j - 1] == hs[j];
    if i == 0 {
      var q' := UnsetKeeps(tail, k, j - 1);
      p, q := 0, 1 + q';
    } else {
      assert tail[i - 1] == hs[i];
      var p', q' := UnsetOrder(tail, k, i - 1, j - 1);
      p, q := |head| + p', |head| + q';
    }
  }

  /** The characters `trim($s)` strips by default: space, tab, newline, carriage return, NUL, vertical tab. */
  const TrimDefault: set<char> := {' ', '\t', '\n', '\r', '\0', '\U{000B}'}

  /** `ltrim($s, $cs)`: `s` without its longest prefix of characters in `cs`. */
  function TrimLeft(s: string, cs: set<char>): (r: string)
    ensures |r| <= |s| && r == s[|s| - |r|..]
    ensures forall i :: 0 <= i < |s| - |r| ==> s[i] in cs
    ensures r == [] || r[0] !in cs
  {
    if s == [] || s[0] !in cs then s else TrimLeft(s[1..], cs)
  }

  /** `rtrim($s, $cs)`: `s` without its longest suffix of characters in `cs`. */
  function TrimRight(s: string, cs: set<char>): (r: string)
    ensures |r| <= |s| && r == s[..|r|]
    ensures forall i :: |r| <= i < |s| ==> s[i] in cs
    ensures r == [] || r[|r| - 1] !in cs
  {
    if s == [] || s[|s| - 1] !in cs then s else TrimRight(s[..|s| - 1], cs)
  }

  /** `trim($s, $cs)`: the slice of `s` left once characters in `cs` are stripped from both ends. */
  function Trim(s: string, cs: set<char>): (r: string)
    ensures TrimStart(s, cs) + |r| <= |s|
    ensures r == s[TrimStart(s, cs)..TrimStart(s, cs) + |r|]
    ensures forall p :: 0 <= p < TrimStart(s, cs) ==> s[p] in cs
    ensures forall p :: TrimStart(s, cs) + |r| <= p < |s| ==> s[p] in cs
    ensures r == [] || (r[0] !in cs && r[|r| - 1] !in cs)
    ensures forall c :: c in r ==> c in s
  {
    var l := TrimLeft(s, cs);
    var r := TrimRight(l, cs);
    StripBoth(s, l, r, cs);
    r
  }

  /** Where the slice `trim` keeps starts: after the leading characters in `cs`. */
  function TrimStart(s: string, cs: set<char>): (i: nat)
    ensures i <= |s|
  {
    |s| - |TrimLeft(s, cs)|
  }

  /** Cutting a prefix and then a suffix of characters in `cs`: the middle slice that is left. */
  lemma StripBoth(s: string, l: string, r: string, cs: set<char>)
    requires |l| <= |s| && l == s[|s| - |l|..]
    requires |r| <= |l| && r == l[..|r|]
    requires forall q :: |r| <= q < |l| ==> l[q] in cs
    requires r == [] || r[0] == l[0]
    ensures var i := |s| - |l|;
            && i + |r| <= |s| && r == s[i..i + |r|]
            && (forall p :: i + |r| <= p < |s| ==> s[p] in cs)
    ensures forall c :: c in r ==> c in s
  {
    var i := |s| - |l|;
    assert forall p :: i <= p < |s| ==> s[p] == l[p - i];
    forall c | c in r ensures c in s {
      var k :| 0 <= k < |r| && r[k] == c;
      assert s[i + k] == c;
    }
  }

  /** Trimming the brackets off `<x>` gives back `x` when `x` holds neither bracket. */
  lemma TrimBrackets(x: string)
    requires x != []
    requires forall i :: 0 <= i < |x| ==> x[i] != '<' && x[i] != '>'
    ensures Trim(['<'] + x + ['>'], {'<', '>'}) == x
  {
    var cs := {'<', '>'};
    var s := ['<'] + x + ['>'];
    var l := x + ['>'];
    assert s[0] in cs && s[1..] == l;
    assert l[0] == x[0] && x[0] !in cs;
    assert TrimLeft(l, cs) == l;
    assert TrimLeft(s, cs) == l;
    assert l[|l| - 1] in cs && l[..|l| - 1] == x;
    assert x[|x| - 1] !in cs;
    assert TrimRight(x, cs) == x;
    assert TrimRight(l, cs) == x;
  }
}
