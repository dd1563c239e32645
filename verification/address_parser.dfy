/**
 * `Mailer::parseAddresses`: one pass of the expression
 *
 *     \s*["']?([^><,;"']+)["']?\s*((?:<[^><,]+>)?)\s*
 *
 * over the whole input (as `preg_match_all` does), each match turned into an
 * email => name pair and stored in an ordered PHP array, where storing an
 * existing key keeps its place and replaces its value.
 *
 * The expression is written out here as the scanner the regular-expression
 * engine runs for it. Every quantifier is greedy and every part after the
 * name run can match empty, so the first match the engine finds is the greedy
 * one, except in one case: when no name run can start after the leading
 * whitespace (and optional quote), the engine gives back the last leading
 * whitespace character, which then is the whole name run. Without leading
 * whitespace there is no match at that position, and the search moves on by
 * one character. After a match the search resumes where the match ended.
 */
module AddressParser {
  import opened Php

  datatype Option<T> = None | Some(value: T)

  /** `\s`: space, tab, line feed, vertical tab, form feed, carriage return. */
  predicate IsSpace(c: char) {
    c == ' ' || c == '\t' || c == '\n' || c == '\U{000B}' || c == '\U{000C}' || c == '\r'
  }

  predicate IsQuote(c: char) {
    c == '"' || c == '\''
  }

  /** `[^><,;"']`: a character of a name run. */
  predicate IsNameChar(c: char) {
    c != '<' && c != '>' && c != ',' && c != ';' && !IsQuote(c)
  }

  /** `[^><,]`: a character between the angle brackets. */
  predicate IsBracketChar(c: char) {
    c != '<' && c != '>' && c != ','
  }

  datatype CharClass = Space | Name | Bracketed

  predicate InClass(c: char, k: CharClass) {
    match k
    case Space => IsSpace(c)
    case Name => IsNameChar(c)
    case Bracketed => IsBracketChar(c)
  }

  predicate AllNameChars(w: string) {
    forall i :: 0 <= i < |w| ==> IsNameChar(w[i])
  }

  predicate AllBracketChars(w: string) {
    forall i :: 0 <= i < |w| ==> IsBracketChar(w[i])
  }

  /** Group 2 when it matched something: `<`, at least one `[^><,]`, `>`. */
  predicate IsBracketGroup(b: string) {
    |b| >= 3 && b[0] == '<' && b[|b| - 1] == '>' && AllBracketChars(b[1..|b| - 1])
  }

  /** What one match of the expression captured: group 1, group 2 and the length matched. */
  datatype Match = Match(name: string, bracket: string, length: nat)

  /** The captures every match of the expression has: a non-empty name run and an empty or bracketed group 2. */
  predicate WellFormed(m: Match) {
    m.name != [] && AllNameChars(m.name) && (m.bracket == [] || IsBracketGroup(m.bracket))
  }

  /** A greedy `[k]*` from position `i` of `s`: the position where the run of class `k` ends. */
  function Span(s: string, i: nat, k: CharClass): (j: nat)
    requires i <= |s|
    ensures i <= j <= |s|
    ensures forall p :: i <= p < j ==> InClass(s[p], k)
    ensures j == |s| || !InClass(s[j], k)
    decreases |s| - i
  {
    if i == |s| || !InClass(s[i], k) then i else Span(s, i + 1, k)
  }

  /** `(?:<[^><,]+>)?` from position `e` of `s`: where group 2 ends, `e` itself when it is empty. */
  function BracketEnd(s: string, e: nat): (f: nat)
    requires e <= |s|
    ensures e <= f <= |s|
    ensures f == e || IsBracketGroup(s[e..f])
  {
    if e < |s| && s[e] == '<' then
      var x := Span(s, e + 1, Bracketed);
      if x > e + 1 && x < |s| && s[x] == '>' then
        var g := s[e..x + 1];
        assert g[1..|g| - 1] == s[e + 1..x];
        x + 1
      else e
    else e
  }

  /**
   * The match whose group 1 is `s[i..j]`: the rest of the expression,
   * `["']?\s*((?:<[^><,]+>)?)\s*`, run greedily from position `j`.
   */
  function MatchWithName(s: string, i: nat, j: nat): (m: Match)
    requires i < j <= |s|
    requires forall p :: i <= p < j ==> IsNameChar(s[p])
    ensures WellFormed(m) && m.name == s[i..j] && j <= m.length <= |s|
  {
    var d := if j < |s| && IsQuote(s[j]) then j + 1 else j;
    var e := Span(s, d, Space);
    var f := BracketEnd(s, e);
    var g := Span(s, f, Space);
    assert forall p :: 0 <= p < j - i ==> s[i..j][p] == s[i + p];
    Match(s[i..j], s[e..f], g)
  }

  /**
   * The match of the expression that starts at the first character of `s`,
   * if there is one. Group 1 is the greedy name run or, when none can start,
   * the last leading whitespace character.
   */
  function MatchAt(s: string): (r: Option<Match>)
    ensures r.Some? ==> WellFormed(r.value) && 0 < r.value.length <= |s|
    ensures s != [] && (IsSpace(s[0]) || IsNameChar(s[0])) ==> r.Some?
    ensures r.Some? ==> s != [] && (IsSpace(s[0]) || IsNameChar(s[0]) || IsQuote(s[0]))
  {
    var a := Span(s, 0, Space);
    var b := if a < |s| && IsQuote(s[a]) then a + 1 else a;
    var c := Span(s, b, Name);
    if c > b then Some(MatchWithName(s, b, c))
    else if a > 0 then Some(MatchWithName(s, a - 1, a))
    else None
  }

  /** All matches of the expression in `s`, in order (`preg_match_all` with `PREG_SET_ORDER`). */
  function Scan(s: string): (ms: seq<Match>)
    ensures forall m :: m in ms ==> WellFormed(m)
    ensures |ms| <= |s|
    decreases |s|
  {
    if s == [] then []
    else
      match MatchAt(s)
      case None => Scan(s[1..])
      case Some(m) => [m] + Scan(s[m.length..])
  }

  /** One entry of the parsed address list: email => display name. */
  datatype Entry = Entry(email: string, name: string)

  /**
   * The entry one match stores: without an angle-bracketed part the untrimmed
   * name run is the email and the name is empty; with one, the email is that
   * part with its brackets trimmed and the name is the trimmed name run.
   */
  function EntryOf(m: Match): Entry {
    if EmptyString(m.bracket) then Entry(m.name, "")
    else Entry(Trim(m.bracket, {'<', '>'}), Trim(m.name, TrimDefault))
  }

  /** What an entry made from a well-formed match looks like, for each of the two kinds of match. */
  lemma EntryKinds(m: Match)
    requires WellFormed(m)
    ensures m.bracket == [] ==> EntryOf(m) == Entry(m.name, "") && AllNameChars(EntryOf(m).email)
    ensures m.bracket != [] ==>
      && EntryOf(m).email == m.bracket[1..|m.bracket| - 1]
      && EntryOf(m).email != []
      && AllBracketChars(EntryOf(m).email)
      && AllNameChars(EntryOf(m).name)
      && (EntryOf(m).name == [] || (EntryOf(m).name[0] !in TrimDefault && EntryOf(m).name[|EntryOf(m).name| - 1] !in TrimDefault))
  {
    if m.bracket != [] {
      var b := m.bracket;
      var x := b[1..|b| - 1];
      assert b == ['<'] + x + ['>'];
      assert b != "0";
      TrimBrackets(x);
      var n := Trim(m.name, TrimDefault);
      forall i | 0 <= i < |n| ensures IsNameChar(n[i]) {
        assert n[i] in n;
        var k :| 0 <= k < |m.name| && m.name[k] == n[i];
      }
    }
  }

  function Emails(m: seq<Entry>): (ks: seq<string>)
    ensures |ks| == |m|
    ensures forall i :: 0 <= i < |m| ==> ks[i] == m[i].email
  {
    seq(|m|, i requires 0 <= i < |m| => m[i].email)
  }

  ghost predicate DistinctEmails(m: seq<Entry>) {
    forall i, j :: 0 <= i < j < |m| ==> m[i].email != m[j].email
  }

  /**
   * `$parsed[$e.email] = $e.name` on an ordered array: an email already
   * present keeps its position and takes the new name; a new email goes last.
   */
  function Upsert(m: seq<Entry>, e: Entry): (r: seq<Entry>)
    requires DistinctEmails(m)
    ensures |r| == if e.email in Emails(m) then |m| else |m| + 1
    ensures forall i :: 0 <= i < |m| ==> r[i] == if m[i].email == e.email then e else m[i]
    ensures e.email !in Emails(m) ==> r[|m|] == e
  {
    if m == [] then [e]
    else
      var rest := m[1..];
      assert Emails(m) == [m[0].email] + Emails(rest);
      assert forall i :: 0 <= i < |rest| ==> rest[i] == m[i + 1];
      if m[0].email == e.email then
        assert forall i :: 0 < i < |m| ==> m[i].email != e.email;
        [e] + rest
      else
        assert DistinctEmails(rest);
        [m[0]] + Upsert(rest, e)
  }

  /** An upsert keeps the emails distinct, and its emails are the old ones, plus the new one last when it is new. */
  lemma UpsertEmails(m: seq<Entry>, e: Entry)
    requires DistinctEmails(m)
    ensures DistinctEmails(Upsert(m, e))
    ensures Emails(Upsert(m, e)) == if e.email in Emails(m) then Emails(m) else Emails(m) + [e.email]
  {
    var r := Upsert(m, e);
    var ks := if e.email in Emails(m) then Emails(m) else Emails(m) + [e.email];
    assert |Emails(r)| == |ks|;
    forall i | 0 <= i < |r| ensures Emails(r)[i] == ks[i] {
      if i < |m| {
        assert r[i].email == m[i].email;
      }
    }
    if e.email !in Emails(m) {
      forall i | 0 <= i < |m| ensures m[i].email != e.email {
        assert Emails(m)[i] == m[i].email;
      }
    }
  }

  /** An upsert holds the new entry and the stored entries with other emails. */
  lemma UpsertCases(m: seq<Entry>, e: Entry)
    requires DistinctEmails(m)
    ensures forall x :: x in Upsert(m, e) ==> x == e || (x in m && x.email != e.email)
  {
    var r := Upsert(m, e);
    forall x | x in r ensures x == e || (x in m && x.email != e.email) {
      var i :| 0 <= i < |r| && r[i] == x;
      if i < |m| { assert m[i] in m; }
    }
  }

  /** The entries and emails of a list are those of all but its last entry, plus the last. */
  lemma LastSplit(es: seq<Entry>)
    requires es != []
    ensures Emails(es) == Emails(es[..|es| - 1]) + [es[|es| - 1].email]
    ensures forall x :: x in es[..|es| - 1] ==> x in es
  {
  }

  /** Storing entries one after another, in order, starting from the empty array. */
  function Store(es: seq<Entry>): (r: seq<Entry>)
    ensures DistinctEmails(r)
    ensures forall x :: x in r ==> x in es
    ensures forall k :: k in Emails(r) <==> k in Emails(es)
  {
    if es == [] then []
    else
      var p := Store(es[..|es| - 1]);
      var e := es[|es| - 1];
      LastSplit(es);
      UpsertEmails(p, e);
      UpsertCases(p, e);
      Upsert(p, e)
  }

  function Entries(ms: seq<Match>): (es: seq<Entry>)
    ensures |es| == |ms|
    ensures forall i :: 0 <= i < |ms| ==> es[i] == EntryOf(ms[i])
  {
    seq(|ms|, i requires 0 <= i < |ms| => EntryOf(ms[i]))
  }

  /** Every entry made from well-formed matches has a non-empty email and a trimmed name, both free of delimiters. */
  lemma EntriesShape(ms: seq<Match>)
    requires forall m :: m in ms ==> WellFormed(m)
    ensures forall e :: e in Entries(ms) ==> e.email != [] && AllBracketChars(e.email) && AllNameChars(e.name)
    ensures forall e :: e in Entries(ms) ==>
      e.name == [] || (e.name[0] !in TrimDefault && e.name[|e.name| - 1] !in TrimDefault)
  {
    var es := Entries(ms);
    forall e | e in es
      ensures e.email != [] && AllBracketChars(e.email) && AllNameChars(e.name)
      ensures e.name == [] || (e.name[0] !in TrimDefault && e.name[|e.name| - 1] !in TrimDefault)
    {
      var i :| 0 <= i < |es| && es[i] == e;
      assert ms[i] in ms;
      EntryKinds(ms[i]);
    }
  }

  /**
   * `parseAddresses`: the ordered email => name array built from every match.
   * No key is ever empty, and each email and name is free of the characters
   * that delimit entries.
   */
  function Parse(addresses: string): (r: seq<Entry>)
    ensures addresses == "" ==> r == []
    ensures DistinctEmails(r)
    ensures forall e :: e in r ==> e.email != [] && AllBracketChars(e.email) && AllNameChars(e.name)
    ensures forall e :: e in r ==> e.name == [] || (e.name[0] !in TrimDefault && e.name[|e.name| - 1] !in TrimDefault)
  {
    var ms := Scan(addresses);
    EntriesShape(ms);
    var es := Entries(ms);
    Store(es)
  }
}
