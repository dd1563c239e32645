/**
 * The parse results the mailer's test suite documents for `parseAddresses`,
 * derived from the scanner one entry at a time.
 */
module AddressExamples {
  import opened Php
  import opened AddressParser
  import opened AddressProperties

  // ---------------------------------------------------------------------
  // One bare address, one named address, a comma-separated pair
  // ---------------------------------------------------------------------

  /** A lone address is stored with an empty name. */
  lemma ParseBareAddress()
    ensures Parse("joe.bloggs@example.com") == [Entry("joe.bloggs@example.com", "")]
  {
    var e := Entry("joe.bloggs@example.com", "");
    assert Formattable(e);
    var st := Style("", "", ',');
    assert Format([e], [st]) == "joe.bloggs@example.com";
    ParseFormat([e], [st]);
  }

  /** A lone whitespace character is the name run of the only match. */
  lemma ScanBlank(c: char) returns (m: Match)
    requires IsSpace(c)
    ensures Scan([c]) == [m]
    ensures m == Match([c], "", 1)
  {
    var s := [c];
    m := Match([c], "", 1);
    SpanIs(s, 0, 1, Space);
    SpanIs(s, 1, 1, Name);
    SpanIs(s, 1, 1, Space);
    assert BracketEnd(s, 1) == 1;
    MatchWithNameIs(s, 0, 1, 1, 1, 1, 1);
    assert s[0..1] == [c] && s[1..1] == "";
    assert MatchAt(s) == Some(m);
    assert s + [] == s;
    ScanStep(s, [], m);
  }

  /**
   * Whitespace alone is not an empty list: the last whitespace character is
   * taken as a name run, so a single space is stored as a bare entry.
   */
  lemma ParseBlank()
    ensures Parse(" ") == [Entry(" ", "")]
  {
    var m := ScanBlank(' ');
    EntriesCons(m, []);
    StoreDistinct([Entry(" ", "")]);
  }

  lemma JoeFormattable()
    ensures Formattable(JoeEntry)
  {
    assert AllNameChars("Joe Bloggs") && AllBracketChars("joe.bloggs@example.com");
  }

  /** `Name <email>` is stored under the email with the name. */
  lemma ParseNamedAddress()
    ensures Parse("Joe Bloggs" + " <" + "joe.bloggs@example.com" + ">") == [JoeEntry]
  {
    JoeFormattable();
    var st := Style("", " ", ',');
    assert Format([JoeEntry], [st]) == FormatEntry(JoeEntry, st);
    SpacedName(JoeEntry.name, JoeEntry.email);
    ParseFormat([JoeEntry], [st]);
  }

  /** `Name <email>` is the unquoted, spaced way of writing a named entry. */
  lemma SpacedName(n: string, x: string)
    ensures "" + n + "" + " " + ("<" + x + ">") == n + " <" + x + ">"
  {
  }

  /** `, ` is the comma separator followed by its space. */
  lemma CommaSpace(t: string)
    ensures [','] + (" " + t) == ", " + t
  {
  }

  lemma JoeBareFormattable()
    ensures Formattable(Entry("joe.bloggs@example.com", ""))
  {
    assert AllNameChars("joe.bloggs@example.com");
  }

  lemma JohnBareFormattable()
    ensures Formattable(Entry("john.smith@example.com", ""))
  {
    assert AllNameChars("john.smith@example.com");
  }

  /** Two bare addresses separated by `", "` are both stored, in order. */
  lemma ParseAddressPair()
    ensures Parse("joe.bloggs@example.com" + (", " + "john.smith@example.com"))
         == [Entry("joe.bloggs@example.com", ""), Entry("john.smith@example.com", "")]
  {
    var e1 := Entry("joe.bloggs@example.com", "");
    var e2 := Entry("john.smith@example.com", "");
    JoeBareFormattable();
    JohnBareFormattable();
    assert [e1, e2][1..] == [e2];
    var st := Style("", "", ',');
    assert Format([e1, e2], [st, st]) == FormatEntry(e1, st) + ([','] + (" " + Format([e2], [st])));
    CommaSpace(Format([e2], [st]));
    ParseFormat([e1, e2], [st, st]);
  }

  // ---------------------------------------------------------------------
  // The mixed list: quoted names, a plain name, `;` and `,`, bare entries
  // ---------------------------------------------------------------------

  // Each entry of the mixed list is written as the pieces the scanner sees:
  // leading whitespace, an optional quote, the name, the same quote, the gap
  // before the bracket, and the bracketed address.
  const JoeQuoted := "" + ("\"" + "Joe Bloggs" + "\"" + "" + ("<" + "joe.bloggs@example.com" + ">"))
  const JohnPlain := " " + ("" + "John Smith" + "" + " " + ("<" + "john.smith@example.com" + ">"))
  const JamesQuoted := " " + ("'" + "James" + "'" + "" + ("<" + "james@example.com" + ">"))
  const FooBare := " " + "foo@example.com"
  const BarBracketed := "<" + ("bar@example.com" + ">")


  /** What the scanner reads for each entry of the mixed list. */
  const JoeMatch := Match("Joe Bloggs", "<" + "joe.bloggs@example.com" + ">", |JoeQuoted|)
  const JohnMatch := Match("John Smith" + " ", "<" + "john.smith@example.com" + ">", |JohnPlain|)
  const JamesMatch := Match("James", "<" + "james@example.com" + ">", |JamesQuoted|)
  const FooMatch := Match("foo@example.com", "", |FooBare|)
  const BarMatch := Match("bar@example.com", "", |"bar@example.com"|)

  lemma JoeChars()
    ensures AllNameChars("Joe Bloggs") && !IsSpace("Joe Bloggs"[0]) && AllBracketChars("joe.bloggs@example.com")
  {
  }

  lemma JohnChars()
    ensures AllNameChars("John Smith") && !IsSpace("John Smith"[0]) && AllBracketChars("john.smith@example.com")
    ensures AllSpaces(" ")
  {
  }

  lemma JamesChars()
    ensures AllNameChars("James") && !IsSpace("James"[0]) && AllBracketChars("james@example.com")
    ensures AllSpaces(" ")
  {
  }

  lemma ScanJoe(v: string)
    requires v == [] || !IsSpace(v[0])
    ensures Scan(JoeQuoted + v) == [JoeMatch] + Scan(v)
  {
    JoeChars();
    var m := ScanNamed("", "\"", "Joe Bloggs", "", "joe.bloggs@example.com", v);
  }

  lemma ScanJohn(v: string)
    requires v == [] || !IsSpace(v[0])
    ensures Scan(JohnPlain + v) == [JohnMatch] + Scan(v)
  {
    JohnChars();
    var m := ScanNamed(" ", "", "John Smith", " ", "john.smith@example.com", v);
  }

  lemma ScanJames(v: string)
    requires v == [] || !IsSpace(v[0])
    ensures Scan(JamesQuoted + v) == [JamesMatch] + Scan(v)
  {
    JamesChars();
    var m := ScanNamed(" ", "'", "James", "", "james@example.com", v);
  }

  /** An address in brackets with no name before it is a bare entry; the brackets are skipped. */
  lemma ScanBracketedBare(w: string) returns (m: Match)
    requires w != [] && AllNameChars(w) && !IsSpace(w[0])
    ensures Scan("<" + (w + ">")) == [m]
    ensures m == Match(w, "", |w|)
  {
    assert "" + w + ">" == w + ">";
    assert ">" == ['>'] + "";
    ScanSkip('>', "");
    m := ScanBare("", w, ">");
    ScanSkip('<', w + ">");
  }

  /** A bare address followed by a separator: one entry, then whatever follows the separator. */
  lemma ScanBareSep(sp: string, w: string, c: char, rest: string) returns (m: Match)
    requires AllSpaces(sp) && w != [] && AllNameChars(w) && !IsSpace(w[0])
    requires IsStop(c) && c != '<'
    ensures Scan(sp + w + ([c] + rest)) == [m] + Scan(rest)
    ensures m == Match(w, "", |sp| + |w|)
  {
    ScanSkip(c, rest);
    m := ScanBare(sp, w, [c] + rest);
  }

  // The list read from its end: each lemma adds one separator and one entry.

  const FromFoo := FooBare + ("," + BarBracketed)
  const FromJames := JamesQuoted + (";" + FromFoo)
  const FromJohn := JohnPlain + ("," + FromJames)

  /** The mixed list of the test suite, exactly as it writes it. */
  const MixedList := JoeQuoted + (";" + FromJohn)

  lemma FooBarChars()
    ensures AllNameChars("foo@example.com") && AllNameChars("bar@example.com")
  {
  }

  lemma ScanFromFoo()
    ensures Scan(FromFoo) == [FooMatch] + [BarMatch]
  {
    FooBarChars();
    var m5 := ScanBracketedBare("bar@example.com");
    var m4 := ScanBareSep(" ", "foo@example.com", ',', BarBracketed);
  }

  lemma ScanFromJames()
    ensures Scan(FromJames) == [JamesMatch] + ([FooMatch] + [BarMatch])
  {
    ScanFromFoo();
    ScanSkip(';', FromFoo);
    ScanJames(";" + FromFoo);
  }

  lemma ScanFromJohn()
    ensures Scan(FromJohn) == [JohnMatch] + ([JamesMatch] + ([FooMatch] + [BarMatch]))
  {
    ScanFromJames();
    ScanSkip(',', FromJames);
    ScanJohn("," + FromJames);
  }

  lemma ScanMixedList()
    ensures Scan(MixedList) == [JoeMatch] + ([JohnMatch] + ([JamesMatch] + ([FooMatch] + [BarMatch])))
  {
    ScanFromJohn();
    ScanSkip(';', FromJohn);
    ScanJoe(";" + FromJohn);
  }

  /** A quoted name is taken as it is when it has no whitespace at either end. */
  lemma EntryOfQuoted(n: string, x: string, k: nat)
    requires n != [] && n[0] !in TrimDefault && n[|n| - 1] !in TrimDefault
    requires x != [] && AllBracketChars(x)
    ensures EntryOf(Match(n, "<" + x + ">", k)) == Entry(x, n)
  {
    assert !EmptyString("<" + x + ">");
    TrimBrackets(x);
    assert TrimLeft(n, TrimDefault) == n;
    assert TrimRight(n, TrimDefault) == n;
  }

  const JoeEntry := Entry("joe.bloggs@example.com", "Joe Bloggs")
  const JohnEntry := Entry("john.smith@example.com", "John Smith")
  const JamesEntry := Entry("james@example.com", "James")
  const FooEntry := Entry("foo@example.com", "")
  const BarEntry := Entry("bar@example.com", "")

  lemma EntryOfJoe()
    ensures EntryOf(JoeMatch) == JoeEntry
  {
    assert AllBracketChars("joe.bloggs@example.com");
    EntryOfQuoted("Joe Bloggs", "joe.bloggs@example.com", |JoeQuoted|);
  }

  lemma JohnFormattable()
    ensures Formattable(JohnEntry)
  {
    JohnChars();
  }

  lemma EntryOfJohn()
    ensures EntryOf(JohnMatch) == JohnEntry
  {
    JohnFormattable();
    EntryOfNamed(JohnEntry, Style("", " ", ','));
    assert JohnMatch == Match(NameRun("", JohnEntry.name, " "), "<" + JohnEntry.email + ">", |JohnPlain|);
  }

  lemma EntryOfJames()
    ensures EntryOf(JamesMatch) == JamesEntry
  {
    assert AllBracketChars("james@example.com");
    EntryOfQuoted("James", "james@example.com", |JamesQuoted|);
  }

  // The entries made from the five matches, one per match, in order, again
  // read from the end of the list.

  lemma EntriesFromFoo()
    ensures Entries([FooMatch] + [BarMatch]) == [FooEntry] + [BarEntry]
  {
    EntriesCons(FooMatch, [BarMatch]);
  }

  lemma EntriesFromJames()
    ensures Entries([JamesMatch] + ([FooMatch] + [BarMatch])) == [JamesEntry] + ([FooEntry] + [BarEntry])
  {
    EntriesFromFoo();
    EntryOfJames();
    EntriesCons(JamesMatch, [FooMatch] + [BarMatch]);
  }

  lemma EntriesFromJohn()
    ensures Entries([JohnMatch] + ([JamesMatch] + ([FooMatch] + [BarMatch])))
         == [JohnEntry] + ([JamesEntry] + ([FooEntry] + [BarEntry]))
  {
    EntriesFromJames();
    EntryOfJohn();
    EntriesCons(JohnMatch, [JamesMatch] + ([FooMatch] + [BarMatch]));
  }

  lemma MatchEntries()
    ensures Entries([JoeMatch] + ([JohnMatch] + ([JamesMatch] + ([FooMatch] + [BarMatch]))))
         == [JoeEntry] + ([JohnEntry] + ([JamesEntry] + ([FooEntry] + [BarEntry])))
  {
    EntriesFromJohn();
    EntryOfJoe();
    EntriesCons(JoeMatch, [JohnMatch] + ([JamesMatch] + ([FooMatch] + [BarMatch])));
  }

  lemma MixedEntries()
    ensures Entries(Scan(MixedList)) == [JoeEntry] + ([JohnEntry] + ([JamesEntry] + ([FooEntry] + [BarEntry])))
  {
    ScanMixedList();
    MatchEntries();
  }

  /** The five entries have distinct emails, so storing them keeps them all, in order. */
  lemma StoreMixed()
    ensures Store([JoeEntry] + ([JohnEntry] + ([JamesEntry] + ([FooEntry] + [BarEntry]))))
         == [JoeEntry, JohnEntry, JamesEntry, FooEntry, BarEntry]
  {
    var es := [JoeEntry, JohnEntry, JamesEntry, FooEntry, BarEntry];
    assert [JoeEntry] + ([JohnEntry] + ([JamesEntry] + ([FooEntry] + [BarEntry]))) == es;
    assert DistinctEmails(es);
    StoreDistinct(es);
  }

  /**
   * The mixed list of the test suite: quoted and plain names, `;` and `,`
   * as separators, a bare address and a bracketed address without a name.
   */
  lemma ParseMixedList()
    ensures Parse(MixedList) == [JoeEntry, JohnEntry, JamesEntry, FooEntry, BarEntry]
  {
    MixedEntries();
    StoreMixed();
  }
}
