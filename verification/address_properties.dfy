/**
 * Properties of `parseAddresses`: how repeated emails are stored, what the
 * scanner does on the shapes of entry people write, a round trip through a
 * formatted address list, and the parse results the mailer documents.
 */
module AddressProperties {
  import opened Php
  import opened AddressParser

  // ---------------------------------------------------------------------
  // Repeated emails: first position, last name
  // ---------------------------------------------------------------------

  /** The distinct keys of `ks`, in the order in which each first occurs. */
  function FirstOccurrences(ks: seq<string>): (r: seq<string>)
  {
    if ks == [] then []
    else
      var init := ks[..|ks| - 1];
      var k := ks[|ks| - 1];
      FirstOccurrences(init) + (if k in init then [] else [k])
  }

  /** The name of the last entry in `es` with email `k`. */
  function LastName(es: seq<Entry>, k: string): string
  {
    if es == [] then ""
    else if es[|es| - 1].email == k then es[|es| - 1].name
    else LastName(es[..|es| - 1], k)
  }

  /** Storing a list of entries puts each email where it first occurs. */
  lemma {:induction false} StoreOrder(es: seq<Entry>)
    ensures Emails(Store(es)) == FirstOccurrences(Emails(es))
  {
    if es != [] {
      var init := es[..|es| - 1];
      var e := es[|es| - 1];
      StoreOrder(init);
      UpsertEmails(Store(init), e);
      assert Emails(es)[..|es| - 1] == Emails(init);
      assert (e.email in Emails(Store(init))) == (e.email in Emails(init));
    }
  }

  /** Storing a list of entries gives each email the name of its last occurrence. */
  lemma {:induction false} StoreNames(es: seq<Entry>)
    ensures forall x :: x in Store(es) ==> x.name == LastName(es, x.email)
  {
    if es != [] {
      var init := es[..|es| - 1];
      var e := es[|es| - 1];
      StoreNames(init);
      UpsertCases(Store(init), e);
      assert Store(es) == Upsert(Store(init), e);
    }
  }

  /**
   * `parseAddresses` stores one entry per distinct email: at the position
   * where the email first occurs, with the name of its last occurrence.
   */
  lemma ParseRepeatedEmails(s: string)
    ensures Emails(Parse(s)) == FirstOccurrences(Emails(Entries(Scan(s))))
    ensures forall x :: x in Parse(s) ==> x.name == LastName(Entries(Scan(s)), x.email)
  {
    StoreOrder(Entries(Scan(s)));
    StoreNames(Entries(Scan(s)));
  }

  /** An upsert of a new email appends the entry. */
  lemma {:induction false} UpsertNew(m: seq<Entry>, e: Entry)
    requires DistinctEmails(m) && e.email !in Emails(m)
    ensures Upsert(m, e) == m + [e]
  {
    var r := Upsert(m, e);
    forall i | 0 <= i < |m| ensures r[i] == m[i] {
      assert Emails(m)[i] == m[i].email;
    }
  }

  /** A list without repeated emails is stored as it is. */
  lemma {:induction false} StoreDistinct(es: seq<Entry>)
    requires DistinctEmails(es)
    ensures Store(es) == es
  {
    if es != [] {
      var init := es[..|es| - 1];
      var e := es[|es| - 1];
      assert es == init + [e];
      assert DistinctEmails(init);
      StoreDistinct(init);
      assert e.email !in Emails(init) by {
        forall i | 0 <= i < |init| ensures Emails(init)[i] != e.email {
          assert init[i] == es[i];
        }
      }
      UpsertNew(init, e);
    }
  }

  // ---------------------------------------------------------------------
  // The scanner on the shapes of entry people write
  // ---------------------------------------------------------------------

  predicate AllSpaces(w: string) {
    forall i :: 0 <= i < |w| ==> IsSpace(w[i])
  }

  /** An optional quote: nothing, `"` or `'`. */
  predicate OptQuote(q: string) {
    q == "" || (|q| == 1 && IsQuote(q[0]))
  }

  /** A character no part of a match consumes and that cannot start one. */
  predicate IsStop(c: char) {
    c == ',' || c == ';' || c == '<' || c == '>'
  }

  /** A run of class `k` from `i` ends at `j` when `s[i..j]` is in the class and `s[j]` is not. */
  lemma {:induction false} SpanIs(s: string, i: nat, j: nat, k: CharClass)
    requires i <= j <= |s|
    requires forall p :: i <= p < j ==> InClass(s[p], k)
    requires j == |s| || !InClass(s[j], k)
    ensures Span(s, i, k) == j
    decreases j - i
  {
    if i < j {
      SpanIs(s, i + 1, j, k);
    }
  }

  /** Grouping of a three-part concatenation. */
  lemma Assoc(x: string, y: string, z: string)
    ensures x + y + z == x + (y + z)
  {
  }

  /** A match that covers exactly `u` is followed by the scan of what comes after. */
  lemma ScanStep(u: string, v: string, m: Match)
    requires MatchAt(u + v) == Some(m) && m.length == |u|
    ensures Scan(u + v) == [m] + Scan(v)
  {
    assert (u + v)[|u|..] == v;
  }

  /** A slice that lies within the left part of a concatenation. */
  lemma SliceIn(u: string, v: string, i: nat, j: nat)
    requires i <= j <= |u|
    ensures (u + v)[i..j] == u[i..j]
  {
  }

  /** `<x>` at position `e`, with `x` free of `<`, `>` and `,`, is a bracket group ending at `f`. */
  lemma BracketEndIs(s: string, e: nat, f: nat)
    requires e + 2 < f <= |s| && s[e] == '<' && s[f - 1] == '>'
    requires forall p :: e + 1 <= p < f - 1 ==> IsBracketChar(s[p])
    ensures BracketEnd(s, e) == f
  {
    SpanIs(s, e + 1, f - 1, Bracketed);
  }

  /** `MatchAt` once the runs it looks at are known. */
  lemma MatchAtIs(s: string, a: nat, b: nat, c: nat)
    requires a <= |s| && Span(s, 0, Space) == a
    requires b == if a < |s| && IsQuote(s[a]) then a + 1 else a
    requires b < c <= |s| && Span(s, b, Name) == c
    ensures MatchAt(s) == Some(MatchWithName(s, b, c))
  {
  }

  /** `MatchWithName` once the runs after group 1 are known. */
  lemma MatchWithNameIs(s: string, i: nat, j: nat, d: nat, e: nat, f: nat, g: nat)
    requires i < j <= |s| && forall p :: i <= p < j ==> IsNameChar(s[p])
    requires d == if j < |s| && IsQuote(s[j]) then j + 1 else j
    requires d <= e <= |s| && Span(s, d, Space) == e
    requires e <= f <= |s| && BracketEnd(s, e) == f
    requires f <= g <= |s| && Span(s, f, Space) == g
    ensures MatchWithName(s, i, j) == Match(s[i..j], s[e..f], g)
  {
  }

  /** A stop character is skipped by the search: no match starts on it. */
  lemma ScanSkip(c: char, rest: string)
    requires IsStop(c)
    ensures Scan([c] + rest) == Scan(rest)
  {
    var s := [c] + rest;
    assert s[0] == c;
    assert !IsSpace(s[0]) && !IsNameChar(s[0]) && !IsQuote(s[0]);
    assert MatchAt(s).None?;
    assert s[1..] == rest;
  }

  /**
   * A bare entry: optional whitespace, then a name run that does not start
   * with whitespace, up to a stop character other than `<`, or the end. The
   * whole run is group 1 and group 2 is empty.
   */
  lemma MatchBare(sp: string, w: string, rest: string)
    requires AllSpaces(sp)
    requires w != [] && AllNameChars(w) && !IsSpace(w[0])
    requires rest == [] || (IsStop(rest[0]) && rest[0] != '<')
    ensures MatchAt(sp + w + rest) == Some(Match(w, "", |sp| + |w|))
  {
    var s := sp + w + rest;
    var a := |sp|;
    var j := a + |w|;
    BareSpans(sp, w, rest);
    MatchAtIs(s, a, a, j);
    MatchWithNameIs(s, a, j, j, j, j, j);
  }

  /** The runs the scanner finds in whitespace, a bare address and what follows. */
  lemma BareSpans(sp: string, w: string, rest: string)
    requires AllSpaces(sp)
    requires w != [] && AllNameChars(w) && !IsSpace(w[0])
    requires rest == [] || (IsStop(rest[0]) && rest[0] != '<')
    ensures var s := sp + w + rest;
            && |sp| < |sp| + |w| <= |s|
            && Span(s, 0, Space) == |sp| && !IsQuote(s[|sp|])
            && Span(s, |sp|, Name) == |sp| + |w|
            && Span(s, |sp| + |w|, Space) == |sp| + |w|
            && BracketEnd(s, |sp| + |w|) == |sp| + |w|
            && (|sp| + |w| < |s| ==> !IsQuote(s[|sp| + |w|]))
            && (forall p :: |sp| <= p < |sp| + |w| ==> IsNameChar(s[p]))
            && s[|sp|..|sp| + |w|] == w && s[|sp| + |w|..|sp| + |w|] == ""
  {
    var s := sp + w + rest;
    var a := |sp|;
    var j := a + |w|;
    BareLayout(sp, w, rest);
    SpanIs(s, 0, a, Space);
    SpanIs(s, a, j, Name);
    SpanIs(s, j, j, Space);
  }

  /** Where the parts of whitespace, a bare address and what follows lie. */
  lemma BareLayout(sp: string, w: string, rest: string)
    requires AllSpaces(sp)
    requires w != [] && AllNameChars(w) && !IsSpace(w[0])
    requires rest == [] || (IsStop(rest[0]) && rest[0] != '<')
    ensures var s := sp + w + rest;
            && (forall p :: 0 <= p < |sp| ==> IsSpace(s[p]))
            && !IsSpace(s[|sp|]) && !IsQuote(s[|sp|])
            && (forall p :: |sp| <= p < |sp| + |w| ==> IsNameChar(s[p]))
            && (|sp| + |w| == |s| || (IsStop(s[|sp| + |w|]) && s[|sp| + |w|] != '<'))
            && s[|sp|..|sp| + |w|] == w && s[|sp| + |w|..|sp| + |w|] == ""
  {
    var s := sp + w + rest;
    var a := |sp|;
    var j := a + |w|;
    assert forall p :: 0 <= p < a ==> s[p] == sp[p];
    assert forall p :: a <= p < j ==> s[p] == w[p - a];
    assert j < |s| ==> s[j] == rest[0];
  }

  /** The scan of a bare entry followed by the end or a stop character other than `<`. */
  lemma ScanBare(sp: string, w: string, rest: string) returns (m: Match)
    requires AllSpaces(sp)
    requires w != [] && AllNameChars(w) && !IsSpace(w[0])
    requires rest == [] || (IsStop(rest[0]) && rest[0] != '<')
    ensures Scan(sp + w + rest) == [m] + Scan(rest)
    ensures m == Match(w, "", |sp| + |w|)
  {
    MatchBare(sp, w, rest);
    m := Match(w, "", |sp| + |w|);
    ScanStep(sp + w, rest, m);
  }

  /**
   * The layout of a named entry in `s`, by positions: whitespace up to `a`,
   * an optional quote up to `b`, the name run up to `j`, an optional quote up
   * to `d`, whitespace (only after a quote) up to `e`, and a bracket group up
   * to `f`, followed by something other than whitespace.
   */
  ghost predicate NamedLayout(s: string, a: nat, b: nat, j: nat, d: nat, e: nat, f: nat) {
    && a <= b < j <= d <= e && e + 2 < f <= |s|
    && (forall p :: 0 <= p < a ==> IsSpace(s[p]))
    && (if b == a then IsNameChar(s[a]) && !IsSpace(s[a]) else b == a + 1 && IsQuote(s[a]))
    && (forall p :: b <= p < j ==> IsNameChar(s[p]))
    && (if d == j then e == d else d == j + 1 && IsQuote(s[j]))
    && (forall p :: d <= p < e ==> IsSpace(s[p]))
    && s[e] == '<' && s[f - 1] == '>'
    && (forall p :: e + 1 <= p < f - 1 ==> IsBracketChar(s[p]))
    && (f == |s| || !IsSpace(s[f]))
  }

  /** The scanner on a named entry laid out by positions. */
  lemma NamedAt(s: string, a: nat, b: nat, j: nat, d: nat, e: nat, f: nat)
    requires NamedLayout(s, a, b, j, d, e, f)
    ensures MatchAt(s) == Some(Match(s[b..j], s[e..f], f))
  {
    SpanIs(s, 0, a, Space);
    SpanIs(s, b, j, Name);
    SpanIs(s, d, e, Space);
    BracketEndIs(s, e, f);
    SpanIs(s, f, f, Space);
    MatchWithNameIs(s, b, j, d, e, f, f);
    MatchAtIs(s, a, b, j);
  }

  /** A named entry that ends where `u` ends keeps its layout when any non-whitespace follows. */
  lemma LayoutExtend(u: string, v: string, a: nat, b: nat, j: nat, d: nat, e: nat)
    requires NamedLayout(u, a, b, j, d, e, |u|)
    requires v == [] || !IsSpace(v[0])
    ensures NamedLayout(u + v, a, b, j, d, e, |u|)
  {
    var s := u + v;
    assert forall p :: 0 <= p < |u| ==> s[p] == u[p];
  }

  /**
   * A named entry `u`, followed by anything that does not start with
   * whitespace: the match covers `u`, group 1 is the name run and group 2 is
   * the bracket group.
   */
  lemma NamedEntryAt(u: string, v: string, a: nat, b: nat, j: nat, d: nat, e: nat, n: string, g: string)
    requires NamedLayout(u, a, b, j, d, e, |u|)
    requires u[b..j] == n && u[e..] == g
    requires v == [] || !IsSpace(v[0])
    ensures MatchAt(u + v) == Some(Match(n, g, |u|))
  {
    LayoutExtend(u, v, a, b, j, d, e);
    SliceIn(u, v, b, j);
    SliceIn(u, v, e, |u|);
    assert u[e..|u|] == u[e..];
    NamedAt(u + v, a, b, j, d, e, |u|);
  }

  /** The scan of a named entry `u` followed by anything that does not start with whitespace. */
  lemma NamedEntryScan(u: string, v: string, a: nat, b: nat, j: nat, d: nat, e: nat, m: Match)
    requires NamedLayout(u, a, b, j, d, e, |u|)
    requires m == Match(u[b..j], u[e..], |u|)
    requires v == [] || !IsSpace(v[0])
    ensures Scan(u + v) == [m] + Scan(v)
  {
    NamedEntryAt(u, v, a, b, j, d, e, m.name, m.bracket);
    ScanStep(u, v, m);
  }

  /** Whitespace in front of a named entry that starts with a non-space shifts its layout. */
  lemma LayoutPrepend(sp: string, u: string, b: nat, j: nat, d: nat, e: nat)
    requires AllSpaces(sp)
    requires NamedLayout(u, 0, b, j, d, e, |u|)
    ensures NamedLayout(sp + u, |sp|, |sp| + b, |sp| + j, |sp| + d, |sp| + e, |sp + u|)
  {
    var s := sp + u;
    var k := |sp|;
    assert forall p :: k <= p < |s| ==> s[p] == u[p - k];
    assert forall p :: 0 <= p < k ==> s[p] == sp[p];
  }

  /** The gap between a name and its `<email>`: nothing or one space. */
  predicate OptGap(gap: string) {
    gap == "" || gap == " "
  }

  /**
   * The name run the expression captures from a name `n` written as
   * `q + n + q + gap` before `<email>`: without quotes the gap is part of the
   * run, after a closing quote it is not.
   */
  function NameRun(q: string, n: string, gap: string): string {
    if q == "" then n + gap else n
  }

  /** Where the parts of an unquoted name run `v` followed by `"<" + x + ">"` lie. */
  lemma PlainLayout(v: string, x: string, u: string)
    requires v != [] && AllNameChars(v) && !IsSpace(v[0])
    requires x != [] && AllBracketChars(x)
    requires u == v + ("<" + x + ">")
    ensures NamedLayout(u, 0, 0, |v|, |v|, |v|, |u|)
    ensures u[0..|v|] == v && u[|v|..] == "<" + x + ">"
  {
    var g := "<" + x + ">";
    var j := |v|;
    assert forall p :: 0 <= p < j ==> u[p] == v[p];
    assert forall p :: j < p < |u| - 1 ==> u[p] == g[p - j] == x[p - j - 1];
    assert u[j] == '<' && u[|u| - 1] == '>';
  }

  /** The characters of a quoted name followed by its gap, `q + n + q + gap`. */
  lemma QuotedHead(q: string, n: string, gap: string, h: string)
    requires |q| == 1 && h == q + n + q + gap
    ensures |h| == 2 + |n| + |gap| && h[0] == q[0] && h[1 + |n|] == q[0]
    ensures forall p :: 1 <= p < 1 + |n| ==> h[p] == n[p - 1]
    ensures forall p :: 2 + |n| <= p < |h| ==> h[p] == gap[p - 2 - |n|]
    ensures h[1..1 + |n|] == n
  {
    var l1 := q + n;
    var l2 := l1 + q;
    SliceIn(l2, gap, 1, 1 + |n|);
    SliceIn(l1, q, 1, 1 + |n|);
    assert l1[1..1 + |n|] == n;
  }

  /** Where the parts of a quoted `q + n + q + gap + "<" + x + ">"` lie. */
  lemma QuotedLayout(q: string, n: string, gap: string, x: string, u: string)
    requires |q| == 1 && IsQuote(q[0]) && OptGap(gap) && n != [] && AllNameChars(n)
    requires x != [] && AllBracketChars(x)
    requires u == q + n + q + gap + ("<" + x + ">")
    ensures NamedLayout(u, 0, 1, 1 + |n|, 2 + |n|, 2 + |n| + |gap|, |u|)
    ensures u[1..1 + |n|] == n && u[2 + |n| + |gap|..] == "<" + x + ">"
  {
    var h := q + n + q + gap;
    var g := "<" + x + ">";
    QuotedHead(q, n, gap, h);
    QuotedTail(h, g, n, gap, x, u);
  }

  /** The quoted head `h` followed by the bracketed email `g`. */
  lemma QuotedTail(h: string, g: string, n: string, gap: string, x: string, u: string)
    requires |h| == 2 + |n| + |gap| && IsQuote(h[0]) && h[1 + |n|] == h[0] && OptGap(gap) && n != [] && AllNameChars(n)
    requires forall p :: 1 <= p < 1 + |n| ==> h[p] == n[p - 1]
    requires forall p :: 2 + |n| <= p < |h| ==> h[p] == gap[p - 2 - |n|]
    requires h[1..1 + |n|] == n
    requires x != [] && AllBracketChars(x) && g == "<" + x + ">"
    requires u == h + g
    ensures NamedLayout(u, 0, 1, 1 + |n|, 2 + |n|, 2 + |n| + |gap|, |u|)
    ensures u[1..1 + |n|] == n && u[2 + |n| + |gap|..] == g
  {
    var e := |h|;
    assert forall p :: 0 <= p < e ==> u[p] == h[p];
    assert forall p :: e < p < |u| - 1 ==> u[p] == g[p - e] == x[p - e - 1];
    assert u[e] == '<' && u[|u| - 1] == '>';
    assert u[1..1 + |n|] == h[1..1 + |n|];
  }

  /** A name followed by an optional gap is still a run of name characters. */
  lemma NameRunChars(n: string, gap: string)
    requires OptGap(gap) && n != [] && AllNameChars(n) && !IsSpace(n[0])
    ensures var v := n + gap; v != [] && AllNameChars(v) && !IsSpace(v[0])
  {
    var v := n + gap;
    assert forall p :: |n| <= p < |v| ==> v[p] == ' ';
  }

  /** Where the parts of `u == q + n + q + gap + "<" + x + ">"` lie, for an optional quote `q`. */
  lemma WrittenLayout(q: string, n: string, gap: string, x: string, u: string) returns (j: nat, d: nat, e: nat)
    requires OptQuote(q) && OptGap(gap) && n != [] && AllNameChars(n) && !IsSpace(n[0])
    requires x != [] && AllBracketChars(x)
    requires u == q + n + q + gap + ("<" + x + ">")
    ensures NamedLayout(u, 0, |q|, j, d, e, |u|)
    ensures u[|q|..j] == NameRun(q, n, gap) && u[e..] == "<" + x + ">"
  {
    if q == "" {
      assert u == (n + gap) + ("<" + x + ">");
      NameRunChars(n, gap);
      PlainLayout(n + gap, x, u);
      j := |n + gap|;
      d, e := j, j;
    } else {
      QuotedLayout(q, n, gap, x, u);
      j, d, e := 1 + |n|, 2 + |n|, 2 + |n| + |gap|;
    }
  }

  /**
   * Scanning whitespace, a name (in quotes or not), an optional space and a
   * bracketed email, followed by anything that does not start with
   * whitespace: one match, whose group 1 is the name run and whose group 2
   * is the bracketed email.
   */
  lemma ScanNamed(sp: string, q: string, n: string, gap: string, x: string, v: string) returns (m: Match)
    requires AllSpaces(sp) && OptQuote(q) && OptGap(gap) && n != [] && AllNameChars(n) && !IsSpace(n[0])
    requires x != [] && AllBracketChars(x)
    requires v == [] || !IsSpace(v[0])
    ensures Scan(sp + (q + n + q + gap + ("<" + x + ">")) + v) == [m] + Scan(v)
    ensures m == Match(NameRun(q, n, gap), "<" + x + ">", |sp + (q + n + q + gap + ("<" + x + ">"))|)
  {
    var w := q + n + q + gap + ("<" + x + ">");
    var j, d, e := WrittenLayout(q, n, gap, x, w);
    m := Match(NameRun(q, n, gap), "<" + x + ">", |sp + w|);
    ShiftedEntryScan(sp, w, v, |q|, j, d, e, m);
  }

  /** A named entry laid out from position 0, behind whitespace: one match, with the same name run and bracket. */
  lemma ShiftedEntryScan(sp: string, w: string, v: string, b: nat, j: nat, d: nat, e: nat, m: Match)
    requires AllSpaces(sp) && NamedLayout(w, 0, b, j, d, e, |w|)
    requires m == Match(w[b..j], w[e..], |sp + w|)
    requires v == [] || !IsSpace(v[0])
    ensures Scan(sp + w + v) == [m] + Scan(v)
  {
    LayoutPrepend(sp, w, b, j, d, e);
    SliceMid(sp, w, b, j);
    SliceOut(sp, w, e);
    NamedEntryScan(sp + w, v, |sp|, |sp| + b, |sp| + j, |sp| + d, |sp| + e, m);
  }

  // ---------------------------------------------------------------------
  // Round trip through a written address list
  // ---------------------------------------------------------------------

  /** An entry that can be written unambiguously: a bare email, or a trimmed name with an email. */
  predicate Formattable(e: Entry) {
    if e.name == "" then
      e.email != [] && AllNameChars(e.email) && !IsSpace(e.email[0])
    else
      && AllNameChars(e.name)
      && !IsSpace(e.name[0]) && e.name[0] !in TrimDefault && e.name[|e.name| - 1] !in TrimDefault
      && e.email != [] && AllBracketChars(e.email)
  }

  /**
   * How an entry with a name is written: the quote around the name (none,
   * `"` or `'`), the gap before `<email>` (none or one space), and the
   * separator after the entry (`,` or `;`).
   */
  datatype Style = Style(quote: string, gap: string, sep: char)

  predicate StyleOk(st: Style) {
    OptQuote(st.quote) && OptGap(st.gap) && (st.sep == ',' || st.sep == ';')
  }

  /**
   * An entry as written: `email` without a name; otherwise `Name <email>`,
   * `Name<email>`, `"Name" <email>`, `'Name'<email>` and so on.
   */
  function FormatEntry(e: Entry, st: Style): string {
    if e.name == "" then e.email else st.quote + e.name + st.quote + st.gap + ("<" + e.email + ">")
  }

  /** Entries written one after another, each but the last followed by its separator and a space. */
  function Format(es: seq<Entry>, sts: seq<Style>): string
    requires |sts| == |es|
    decreases |es|
  {
    if es == [] then ""
    else if |es| == 1 then FormatEntry(es[0], sts[0])
    else FormatEntry(es[0], sts[0]) + ([sts[0].sep] + (" " + Format(es[1..], sts[1..])))
  }

  /** A trimmed string is its own `trim`. */
  lemma TrimTrimmed(n: string)
    requires n != [] && n[0] !in TrimDefault && n[|n| - 1] !in TrimDefault
    ensures Trim(n, TrimDefault) == n
  {
    assert TrimLeft(n, TrimDefault) == n;
    assert TrimRight(n, TrimDefault) == n;
  }

  /** Trimming one space off the end of a trimmed name gives back the name. */
  lemma TrimTrailingSpace(n: string)
    requires n != [] && n[0] !in TrimDefault && n[|n| - 1] !in TrimDefault
    ensures Trim(n + " ", TrimDefault) == n
  {
    var s := n + " ";
    assert s[0] == n[0];
    assert TrimLeft(s, TrimDefault) == s;
    assert s[..|s| - 1] == n;
    assert TrimRight(n, TrimDefault) == n;
  }

  /** The name run of a written trimmed name trims back to the name. */
  lemma TrimNameRun(q: string, n: string, gap: string)
    requires OptGap(gap) && n != [] && n[0] !in TrimDefault && n[|n| - 1] !in TrimDefault
    ensures Trim(NameRun(q, n, gap), TrimDefault) == n
  {
    if q == "" && gap == " " {
      TrimTrailingSpace(n);
    } else {
      assert q == "" ==> n + gap == n;
      TrimTrimmed(n);
    }
  }

  /** Slices of the right part of a concatenation. */
  lemma SliceOut(u: string, v: string, j: nat)
    requires j <= |v|
    ensures (u + v)[|u|..|u| + j] == v[..j]
    ensures (u + v)[|u| + j..] == v[j..]
  {
  }

  /** A slice inside the right part of a concatenation. */
  lemma SliceMid(u: string, v: string, i: nat, j: nat)
    requires i <= j <= |v|
    ensures (u + v)[|u| + i..|u| + j] == v[i..j]
  {
  }

  /** The entry stored for the match of a written named entry is that entry. */
  lemma EntryOfNamed(e: Entry, st: Style)
    requires Formattable(e) && e.name != "" && StyleOk(st)
    ensures forall k :: EntryOf(Match(NameRun(st.quote, e.name, st.gap), "<" + e.email + ">", k)) == e
  {
    assert !EmptyString("<" + e.email + ">");
    TrimBrackets(e.email);
    TrimNameRun(st.quote, e.name, st.gap);
  }

  /** Scanning a written entry, followed by the end or a separator, yields the entry. */
  lemma ScanEntry(sp: string, e: Entry, st: Style, rest: string) returns (m: Match)
    requires AllSpaces(sp) && Formattable(e) && StyleOk(st)
    requires rest == [] || rest[0] == ',' || rest[0] == ';'
    ensures Scan(sp + FormatEntry(e, st) + rest) == [m] + Scan(rest)
    ensures EntryOf(m) == e
  {
    if e.name == "" {
      m := ScanBareEntry(sp, e, st, rest);
    } else {
      m := ScanNamedEntry(sp, e, st, rest);
    }
  }

  /** Scanning a written entry without a name. */
  lemma ScanBareEntry(sp: string, e: Entry, st: Style, rest: string) returns (m: Match)
    requires AllSpaces(sp) && Formattable(e) && e.name == ""
    requires rest == [] || rest[0] == ',' || rest[0] == ';'
    ensures Scan(sp + FormatEntry(e, st) + rest) == [m] + Scan(rest)
    ensures EntryOf(m) == e
  {
    assert FormatEntry(e, st) == e.email;
    m := ScanBare(sp, e.email, rest);
  }

  /** Scanning a written entry with a name. */
  lemma ScanNamedEntry(sp: string, e: Entry, st: Style, rest: string) returns (m: Match)
    requires AllSpaces(sp) && Formattable(e) && e.name != "" && StyleOk(st)
    requires rest == [] || rest[0] == ',' || rest[0] == ';'
    ensures Scan(sp + FormatEntry(e, st) + rest) == [m] + Scan(rest)
    ensures EntryOf(m) == e
  {
    assert FormatEntry(e, st) == st.quote + e.name + st.quote + st.gap + ("<" + e.email + ">");
    m := ScanNamed(sp, st.quote, e.name, st.gap, e.email, rest);
    EntryOfNamed(e, st);
  }

  /** The entries of matches that start with `m` start with the entry of `m`. */
  lemma EntriesCons(m: Match, ms: seq<Match>)
    ensures Entries([m] + ms) == [EntryOf(m)] + Entries(ms)
  {
  }

  /** Entries of a scan that starts with a given match. */
  lemma ScanCons(s: string, t: string, m: Match, e: Entry, es: seq<Entry>)
    requires Scan(s) == [m] + Scan(t)
    requires EntryOf(m) == e && Entries(Scan(t)) == es
    ensures Entries(Scan(s)) == [e] + es
  {
    EntriesCons(m, Scan(t));
  }

  /** Scanning a written list of one entry. */
  lemma ScanFormatOne(sp: string, e: Entry, st: Style)
    requires AllSpaces(sp) && Formattable(e) && StyleOk(st)
    ensures Entries(Scan(sp + Format([e], [st]))) == [e]
  {
    assert sp + Format([e], [st]) == sp + FormatEntry(e, st) + "";
    var m := ScanEntry(sp, e, st, "");
    ScanCons(sp + Format([e], [st]), "", m, e, []);
  }

  /** Scanning a written list of several entries, given the scan of its tail. */
  lemma {:induction false} ScanFormatCons(sp: string, es: seq<Entry>, sts: seq<Style>)
    requires AllSpaces(sp) && |es| >= 2 && |sts| == |es| && Formattable(es[0]) && StyleOk(sts[0])
    requires Entries(Scan(" " + Format(es[1..], sts[1..]))) == es[1..]
    ensures Entries(Scan(sp + Format(es, sts))) == es
  {
    var tail := " " + Format(es[1..], sts[1..]);
    FormatSplit(sp, es, sts);
    var m := ScanEntrySep(sp, es[0], sts[0], tail);
    ScanCons(sp + Format(es, sts), tail, m, es[0], es[1..]);
    assert es == [es[0]] + es[1..];
  }

  /** A written list of several entries: the first entry, its separator, a space and the rest. */
  lemma FormatSplit(sp: string, es: seq<Entry>, sts: seq<Style>)
    requires |es| >= 2 && |sts| == |es|
    ensures sp + Format(es, sts)
         == sp + FormatEntry(es[0], sts[0]) + ([sts[0].sep] + (" " + Format(es[1..], sts[1..])))
  {
    var r := [sts[0].sep] + (" " + Format(es[1..], sts[1..]));
    assert Format(es, sts) == FormatEntry(es[0], sts[0]) + r;
    Assoc(sp, FormatEntry(es[0], sts[0]), r);
  }

  /** Scanning a written entry followed by its separator: the entry, then whatever follows the separator. */
  lemma ScanEntrySep(sp: string, e: Entry, st: Style, tail: string) returns (m: Match)
    requires AllSpaces(sp) && Formattable(e) && StyleOk(st)
    ensures Scan(sp + FormatEntry(e, st) + ([st.sep] + tail)) == [m] + Scan(tail)
    ensures EntryOf(m) == e
  {
    m := ScanEntry(sp, e, st, [st.sep] + tail);
    ScanSkip(st.sep, tail);
  }

  /** Scanning a written list (after optional whitespace) yields one match per entry, in order. */
  lemma {:induction false} ScanFormat(sp: string, es: seq<Entry>, sts: seq<Style>)
    requires AllSpaces(sp) && (es == [] ==> sp == []) && |sts| == |es|
    requires forall e :: e in es ==> Formattable(e)
    requires forall st :: st in sts ==> StyleOk(st)
    ensures Entries(Scan(sp + Format(es, sts))) == es
    decreases |es|
  {
    if es == [] {
      assert sp + Format(es, sts) == "";
    } else if |es| == 1 {
      assert es == [es[0]] && sts == [sts[0]];
      assert sts[0] in sts;
      ScanFormatOne(sp, es[0], sts[0]);
    } else {
      assert es[0] in es && sts[0] in sts;
      assert forall st :: st in sts[1..] ==> st in sts;
      ScanFormat(" ", es[1..], sts[1..]);
      ScanFormatCons(sp, es, sts);
    }
  }

  /**
   * Round trip: writing entries with distinct emails in any of the forms
   * `email`, `Name <email>`, `Name<email>`, `"Name" <email>`, `'Name'<email>`
   * (and the other quote and gap combinations), separated by `, ` or `; `,
   * and parsing the result gives back the entries, in order.
   */
  lemma ParseFormat(es: seq<Entry>, sts: seq<Style>)
    requires |sts| == |es|
    requires forall e :: e in es ==> Formattable(e)
    requires forall st :: st in sts ==> StyleOk(st)
    requires DistinctEmails(es)
    ensures Parse(Format(es, sts)) == es
  {
    ScanFormat("", es, sts);
    assert "" + Format(es, sts) == Format(es, sts);
    StoreDistinct(es);
  }
}
