/**
 * What a message looks like once the mailer has assembled it: the calls
 * made on the builder, in order (`BuildTrace`), and the one request that
 * reaches the service for a send (`Dispatch`). The mailer's methods are
 * proved to produce exactly these; the lemmas here say what they contain.
 */
module Assembly {
  import opened Php
  import opened AddressParser
  import opened Files
  import opened Mailgun

  /** An attachment as the caller passes it: its contents and the name it is sent under. */
  datatype Attachment = Attachment(contents: string, filename: string)

  /** An attachment staged on disk: the temporary file and the name it is sent under. */
  datatype Prepared = Prepared(filePath: Path, remoteName: string)

  /** The header that asks for a batch message. */
  const BatchKey := "X-Mailgunner-Batch-Message"

  /** `isset($headers[$k]) ? $headers[$k] : ''`, as the address list `parseAddresses` receives. */
  function ListIn(hs: seq<Header>, k: string): (s: string)
    ensures Get(hs, k).Text? ==> s == Get(hs, k).s
    ensures !IsSet(Get(hs, k)) ==> s == ""
  {
    AsString(Get(hs, k))
  }

  /** The headers passed on as custom headers: all but `Cc` and `Bcc`. */
  function CustomHeaders(hs: seq<Header>): (r: seq<Header>)
    ensures forall h :: h in r <==> h in hs && h.name != "Cc" && h.name != "Bcc"
  {
    UnsetMembers(hs, "Cc");
    UnsetMembers(Unset(hs, "Cc"), "Bcc");
    Unset(Unset(hs, "Cc"), "Bcc")
  }

  /** The forwarded headers keep their input order: two kept headers stay in the same order. */
  lemma CustomHeadersOrder(hs: seq<Header>, i: nat, j: nat) returns (p: nat, q: nat)
    requires i < j < |hs|
    requires hs[i].name != "Cc" && hs[i].name != "Bcc" && hs[j].name != "Cc" && hs[j].name != "Bcc"
    ensures p < q < |CustomHeaders(hs)|
    ensures CustomHeaders(hs)[p] == hs[i] && CustomHeaders(hs)[q] == hs[j]
  {
    var p1, q1 := UnsetOrder(hs, "Cc", i, j);
    p, q := UnsetOrder(Unset(hs, "Cc"), "Bcc", p1, q1);
  }

  function FromEvents(es: seq<Entry>): (t: seq<Event>) {
    seq(|es|, i requires 0 <= i < |es| => SetFrom(es[i].email, es[i].name))
  }

  function AttachmentEvents(ps: seq<Prepared>): (t: seq<Event>) {
    seq(|ps|, i requires 0 <= i < |ps| => AddAttachment(ps[i].filePath, ps[i].remoteName))
  }

  function HeaderEvents(hs: seq<Header>): (t: seq<Event>) {
    seq(|hs|, i requires 0 <= i < |hs| => AddCustomHeader(hs[i].name, hs[i].value))
  }

  function RecipientEvents(k: Kind, es: seq<Entry>): (t: seq<Event>) {
    seq(|es|, i requires 0 <= i < |es| => AddRecipient(k, es[i].email, es[i].name))
  }

  /** The builder calls for already parsed sender and recipient lists and already filtered headers. */
  function Trace(senders: seq<Entry>, subject: string, html: string, text: string, atts: seq<Prepared>,
                 custom: seq<Header>, to: seq<Entry>, cc: seq<Entry>, bcc: seq<Entry>): seq<Event>
  {
    FromEvents(senders)
    + [SetSubject(subject)] + [SetHtml(html)] + [SetText(text)]
    + AttachmentEvents(atts)
    + HeaderEvents(custom)
    + RecipientEvents(To, to)
    + RecipientEvents(Cc, cc)
    + RecipientEvents(Bcc, bcc)
  }

  /** The calls `buildMessage` makes on its builder, in order. */
  function BuildTrace(to: string, from: string, subject: string, html: string, text: string,
                      atts: seq<Prepared>, hs: seq<Header>): seq<Event>
  {
    Trace(Parse(from), subject, html, text, atts, CustomHeaders(hs),
          Parse(to), Parse(ListIn(hs, "Cc")), Parse(ListIn(hs, "Bcc")))
  }

  /**
   * The request a send makes: with the batch header set, the batch is
   * built without that header and finalized; otherwise the message is built
   * from all the headers and sent once with its files.
   */
  function Dispatch(domain: string, to: string, from: string, subject: string, html: string, text: string,
                    atts: seq<Prepared>, hs: seq<Header>): Call
  {
    if IsSet(Get(hs, BatchKey)) then
      FinalizeCall(domain, BuildTrace(to, from, subject, html, text, atts, Unset(hs, BatchKey)))
    else
      var t := BuildTrace(to, from, subject, html, text, atts, hs);
      SendCall(domain, t, FilesOf(t))
  }

  // ---------------------------------------------------------------------
  // What each slot of the trace holds
  // ---------------------------------------------------------------------

  /** Selecting from nine traces in a row, each in a single slot of its own. */
  lemma SelectNine(s1: seq<Event>, s2: seq<Event>, s3: seq<Event>, s4: seq<Event>, s5: seq<Event>,
                   s6: seq<Event>, s7: seq<Event>, s8: seq<Event>, s9: seq<Event>,
                   d1: Slot, d2: Slot, d3: Slot, d4: Slot, d5: Slot, d6: Slot, d7: Slot, d8: Slot, d9: Slot, c: Slot)
    requires forall i :: 0 <= i < |s1| ==> SlotOf(s1[i]) == d1
    requires forall i :: 0 <= i < |s2| ==> SlotOf(s2[i]) == d2
    requires forall i :: 0 <= i < |s3| ==> SlotOf(s3[i]) == d3
    requires forall i :: 0 <= i < |s4| ==> SlotOf(s4[i]) == d4
    requires forall i :: 0 <= i < |s5| ==> SlotOf(s5[i]) == d5
    requires forall i :: 0 <= i < |s6| ==> SlotOf(s6[i]) == d6
    requires forall i :: 0 <= i < |s7| ==> SlotOf(s7[i]) == d7
    requires forall i :: 0 <= i < |s8| ==> SlotOf(s8[i]) == d8
    requires forall i :: 0 <= i < |s9| ==> SlotOf(s9[i]) == d9
    ensures Select(s1 + s2 + s3 + s4 + s5 + s6 + s7 + s8 + s9, c)
         == Pick(c, d1, s1) + Pick(c, d2, s2) + Pick(c, d3, s3) + Pick(c, d4, s4) + Pick(c, d5, s5)
          + Pick(c, d6, s6) + Pick(c, d7, s7) + Pick(c, d8, s8) + Pick(c, d9, s9)
  {
    SelectUniform(s1, d1, c);
    SelectUniform(s2, d2, c);
    SelectUniform(s3, d3, c);
    SelectUniform(s4, d4, c);
    SelectUniform(s5, d5, c);
    SelectUniform(s6, d6, c);
    SelectUniform(s7, d7, c);
    SelectUniform(s8, d8, c);
    SelectUniform(s9, d9, c);
    SelectAppend(s1, s2, c);
    SelectAppend(s1 + s2, s3, c);
    SelectAppend(s1 + s2 + s3, s4, c);
    SelectAppend(s1 + s2 + s3 + s4, s5, c);
    SelectAppend(s1 + s2 + s3 + s4 + s5, s6, c);
    SelectAppend(s1 + s2 + s3 + s4 + s5 + s6, s7, c);
    SelectAppend(s1 + s2 + s3 + s4 + s5 + s6 + s7, s8, c);
    SelectAppend(s1 + s2 + s3 + s4 + s5 + s6 + s7 + s8, s9, c);
  }

  /** The trace selected by slot, segment by segment. */
  lemma SelectTrace(senders: seq<Entry>, subject: string, html: string, text: string, atts: seq<Prepared>,
                    custom: seq<Header>, to: seq<Entry>, cc: seq<Entry>, bcc: seq<Entry>, c: Slot)
    ensures Select(Trace(senders, subject, html, text, atts, custom, to, cc, bcc), c)
         == Pick(c, FromSlot, FromEvents(senders))
          + Pick(c, SubjectSlot, [SetSubject(subject)])
          + Pick(c, HtmlSlot, [SetHtml(html)])
          + Pick(c, TextSlot, [SetText(text)])
          + Pick(c, AttachmentSlot, AttachmentEvents(atts))
          + Pick(c, HeaderSlot, HeaderEvents(custom))
          + Pick(c, RecipientSlot(To), RecipientEvents(To, to))
          + Pick(c, RecipientSlot(Cc), RecipientEvents(Cc, cc))
          + Pick(c, RecipientSlot(Bcc), RecipientEvents(Bcc, bcc))
  {
    SelectNine(FromEvents(senders), [SetSubject(subject)], [SetHtml(html)], [SetText(text)],
               AttachmentEvents(atts), HeaderEvents(custom),
               RecipientEvents(To, to), RecipientEvents(Cc, cc), RecipientEvents(Bcc, bcc),
               FromSlot, SubjectSlot, HtmlSlot, TextSlot, AttachmentSlot, HeaderSlot,
               RecipientSlot(To), RecipientSlot(Cc), RecipientSlot(Bcc), c);
  }

  /** Each non-recipient slot of the trace holds exactly the calls made from one input, in order. */
  lemma TraceSlots(senders: seq<Entry>, subject: string, html: string, text: string, atts: seq<Prepared>,
                   custom: seq<Header>, to: seq<Entry>, cc: seq<Entry>, bcc: seq<Entry>)
    ensures var t := Trace(senders, subject, html, text, atts, custom, to, cc, bcc);
            && Select(t, FromSlot) == FromEvents(senders)
            && Select(t, SubjectSlot) == [SetSubject(subject)]
            && Select(t, HtmlSlot) == [SetHtml(html)]
            && Select(t, TextSlot) == [SetText(text)]
            && Select(t, AttachmentSlot) == AttachmentEvents(atts)
            && Select(t, HeaderSlot) == HeaderEvents(custom)
  {
    TraceHeadSlots(senders, subject, html, text, atts, custom, to, cc, bcc);
    TraceBodySlots(senders, subject, html, text, atts, custom, to, cc, bcc);
  }

  lemma TraceHeadSlots(senders: seq<Entry>, subject: string, html: string, text: string, atts: seq<Prepared>,
                       custom: seq<Header>, to: seq<Entry>, cc: seq<Entry>, bcc: seq<Entry>)
    ensures var t := Trace(senders, subject, html, text, atts, custom, to, cc, bcc);
            && Select(t, FromSlot) == FromEvents(senders)
            && Select(t, SubjectSlot) == [SetSubject(subject)]
            && Select(t, HtmlSlot) == [SetHtml(html)]
  {
    SelectTrace(senders, subject, html, text, atts, custom, to, cc, bcc, FromSlot);
    SelectTrace(senders, subject, html, text, atts, custom, to, cc, bcc, SubjectSlot);
    SelectTrace(senders, subject, html, text, atts, custom, to, cc, bcc, HtmlSlot);
  }

  lemma TraceBodySlots(senders: seq<Entry>, subject: string, html: string, text: string, atts: seq<Prepared>,
                       custom: seq<Header>, to: seq<Entry>, cc: seq<Entry>, bcc: seq<Entry>)
    ensures var t := Trace(senders, subject, html, text, atts, custom, to, cc, bcc);
            && Select(t, TextSlot) == [SetText(text)]
            && Select(t, AttachmentSlot) == AttachmentEvents(atts)
            && Select(t, HeaderSlot) == HeaderEvents(custom)
  {
    SelectTrace(senders, subject, html, text, atts, custom, to, cc, bcc, TextSlot);
    SelectTrace(senders, subject, html, text, atts, custom, to, cc, bcc, AttachmentSlot);
    SelectTrace(senders, subject, html, text, atts, custom, to, cc, bcc, HeaderSlot);
  }

  /** Each recipient slot of the trace holds exactly the calls for its list, in order. */
  lemma TraceRecipientSlots(senders: seq<Entry>, subject: string, html: string, text: string, atts: seq<Prepared>,
                            custom: seq<Header>, to: seq<Entry>, cc: seq<Entry>, bcc: seq<Entry>)
    ensures var t := Trace(senders, subject, html, text, atts, custom, to, cc, bcc);
            && Select(t, RecipientSlot(To)) == RecipientEvents(To, to)
            && Select(t, RecipientSlot(Cc)) == RecipientEvents(Cc, cc)
            && Select(t, RecipientSlot(Bcc)) == RecipientEvents(Bcc, bcc)
  {
    SelectTrace(senders, subject, html, text, atts, custom, to, cc, bcc, RecipientSlot(To));
    SelectTrace(senders, subject, html, text, atts, custom, to, cc, bcc, RecipientSlot(Cc));
    SelectTrace(senders, subject, html, text, atts, custom, to, cc, bcc, RecipientSlot(Bcc));
  }

  /** Subject, HTML body and text body are each set exactly once, with the given value, even when empty. */
  lemma BodiesSetOnce(to: string, from: string, subject: string, html: string, text: string,
                      atts: seq<Prepared>, hs: seq<Header>)
    ensures var t := BuildTrace(to, from, subject, html, text, atts, hs);
            && Select(t, SubjectSlot) == [SetSubject(subject)]
            && Select(t, HtmlSlot) == [SetHtml(html)]
            && Select(t, TextSlot) == [SetText(text)]
  {
    TraceSlots(Parse(from), subject, html, text, atts, CustomHeaders(hs),
               Parse(to), Parse(ListIn(hs, "Cc")), Parse(ListIn(hs, "Bcc")));
  }

  /** One sender call per parsed `from` entry, in order: none when `from` parses to nothing, several when it lists several. */
  lemma SendersFromParse(to: string, from: string, subject: string, html: string, text: string,
                         atts: seq<Prepared>, hs: seq<Header>)
    ensures var f := Select(BuildTrace(to, from, subject, html, text, atts, hs), FromSlot);
            && |f| == |Parse(from)|
            && forall i :: 0 <= i < |f| ==> f[i] == SetFrom(Parse(from)[i].email, Parse(from)[i].name)
  {
    TraceSlots(Parse(from), subject, html, text, atts, CustomHeaders(hs),
               Parse(to), Parse(ListIn(hs, "Cc")), Parse(ListIn(hs, "Bcc")));
  }

  /** One attachment call per prepared attachment, in order, and the message's files are their paths. */
  lemma AttachmentsInOrder(to: string, from: string, subject: string, html: string, text: string,
                           atts: seq<Prepared>, hs: seq<Header>)
    ensures var t := BuildTrace(to, from, subject, html, text, atts, hs);
            && Select(t, AttachmentSlot) == AttachmentEvents(atts)
            && FilesOf(t) == seq(|atts|, i requires 0 <= i < |atts| => atts[i].filePath)
  {
    TraceSlots(Parse(from), subject, html, text, atts, CustomHeaders(hs),
               Parse(to), Parse(ListIn(hs, "Cc")), Parse(ListIn(hs, "Bcc")));
  }

  /**
   * Every header but `Cc` and `Bcc` becomes exactly one custom-header call,
   * in input order and with its value unchanged; `Cc` and `Bcc` never do.
   */
  lemma HeadersForwarded(to: string, from: string, subject: string, html: string, text: string,
                         atts: seq<Prepared>, hs: seq<Header>)
    ensures var t := BuildTrace(to, from, subject, html, text, atts, hs);
            && Select(t, HeaderSlot) == HeaderEvents(CustomHeaders(hs))
            && forall n, v :: AddCustomHeader(n, v) in t <==> Header(n, v) in hs && n != "Cc" && n != "Bcc"
  {
    var t := BuildTrace(to, from, subject, html, text, atts, hs);
    TraceSlots(Parse(from), subject, html, text, atts, CustomHeaders(hs),
               Parse(to), Parse(ListIn(hs, "Cc")), Parse(ListIn(hs, "Bcc")));
    HeaderCalls(t, CustomHeaders(hs));
  }

  /** The custom-header calls of a trace whose header slot holds the calls for `ch` are those of `ch`. */
  lemma HeaderCalls(t: seq<Event>, ch: seq<Header>)
    requires Select(t, HeaderSlot) == HeaderEvents(ch)
    ensures forall n, v :: AddCustomHeader(n, v) in t <==> Header(n, v) in ch
  {
    forall n, v ensures AddCustomHeader(n, v) in t <==> Header(n, v) in ch {
      if AddCustomHeader(n, v) in t {
        assert AddCustomHeader(n, v) in HeaderEvents(ch);
        var i :| 0 <= i < |ch| && HeaderEvents(ch)[i] == AddCustomHeader(n, v);
        assert ch[i] == Header(n, v);
      }
      if Header(n, v) in ch {
        var i :| 0 <= i < |ch| && ch[i] == Header(n, v);
        assert HeaderEvents(ch)[i] == AddCustomHeader(n, v);
        assert AddCustomHeader(n, v) in Select(t, HeaderSlot);
      }
    }
  }

  /**
   * To, Cc and Bcc recipients are the parsed `to` argument and the parsed
   * `Cc` and `Bcc` header values, one call per entry in order; an unset
   * `Cc` or `Bcc` header gives no call of its kind.
   */
  lemma RecipientsFromParse(to: string, from: string, subject: string, html: string, text: string,
                            atts: seq<Prepared>, hs: seq<Header>)
    ensures var t := BuildTrace(to, from, subject, html, text, atts, hs);
            && Select(t, RecipientSlot(To)) == RecipientEvents(To, Parse(to))
            && Select(t, RecipientSlot(Cc)) == RecipientEvents(Cc, Parse(ListIn(hs, "Cc")))
            && Select(t, RecipientSlot(Bcc)) == RecipientEvents(Bcc, Parse(ListIn(hs, "Bcc")))
            && (!IsSet(Get(hs, "Cc")) ==> Select(t, RecipientSlot(Cc)) == [])
            && (!IsSet(Get(hs, "Bcc")) ==> Select(t, RecipientSlot(Bcc)) == [])
  {
    TraceRecipientSlots(Parse(from), subject, html, text, atts, CustomHeaders(hs),
                        Parse(to), Parse(ListIn(hs, "Cc")), Parse(ListIn(hs, "Bcc")));
  }

  // ---------------------------------------------------------------------
  // Recipients come last, To before Cc before Bcc
  // ---------------------------------------------------------------------

  /** 0 for every call that is not a recipient, then 1, 2, 3 for To, Cc, Bcc. */
  function Rank(e: Event): nat {
    match e
    case AddRecipient(To, _, _) => 1
    case AddRecipient(Cc, _, _) => 2
    case AddRecipient(Bcc, _, _) => 3
    case _ => 0
  }

  ghost predicate Ordered(t: seq<Event>) {
    forall i, j :: 0 <= i < j < |t| ==> Rank(t[i]) <= Rank(t[j])
  }

  ghost predicate AllRank(t: seq<Event>, r: nat) {
    forall i :: 0 <= i < |t| ==> Rank(t[i]) == r
  }

  lemma AllRankAppend(a: seq<Event>, b: seq<Event>, r: nat)
    requires AllRank(a, r) && AllRank(b, r)
    ensures AllRank(a + b, r)
  {
    forall i | 0 <= i < |a + b| ensures Rank((a + b)[i]) == r {
      if i >= |a| { assert (a + b)[i] == b[i - |a|]; }
    }
  }

  /** Four runs of ranks 0, 1, 2, 3, one after another, are in rank order. */
  lemma OrderedRuns(p: seq<Event>, q: seq<Event>, r: seq<Event>, s: seq<Event>)
    requires AllRank(p, 0) && AllRank(q, 1) && AllRank(r, 2) && AllRank(s, 3)
    ensures Ordered(p + q + r + s)
  {
    var t := p + q + r + s;
    forall k | 0 <= k < |t|
      ensures Rank(t[k]) == if k < |p| then 0 else if k < |p| + |q| then 1 else if k < |p| + |q| + |r| then 2 else 3
    {
      if k < |p| { assert t[k] == p[k]; }
      else if k < |p| + |q| { assert t[k] == q[k - |p|]; }
      else if k < |p| + |q| + |r| { assert t[k] == r[k - |p| - |q|]; }
      else { assert t[k] == s[k - |p| - |q| - |r|]; }
    }
  }

  /**
   * Every sender, subject, body, attachment and custom-header call comes
   * before every recipient call, and To recipients come before Cc, which
   * come before Bcc: a batch builder may send when recipients are added.
   */
  lemma RecipientsLast(to: string, from: string, subject: string, html: string, text: string,
                       atts: seq<Prepared>, hs: seq<Header>)
    ensures Ordered(BuildTrace(to, from, subject, html, text, atts, hs))
  {
    TraceOrdered(Parse(from), subject, html, text, atts, CustomHeaders(hs),
                 Parse(to), Parse(ListIn(hs, "Cc")), Parse(ListIn(hs, "Bcc")));
  }

  /** The rank order of a trace, for any lists. */
  lemma TraceOrdered(senders: seq<Entry>, subject: string, html: string, text: string, atts: seq<Prepared>,
                     custom: seq<Header>, to: seq<Entry>, cc: seq<Entry>, bcc: seq<Entry>)
    ensures Ordered(Trace(senders, subject, html, text, atts, custom, to, cc, bcc))
  {
    var s1 := FromEvents(senders);
    var s5 := AttachmentEvents(atts);
    var s6 := HeaderEvents(custom);
    assert AllRank(s1, 0) && AllRank(s5, 0) && AllRank(s6, 0);
    AllRankAppend(s1, [SetSubject(subject)], 0);
    AllRankAppend(s1 + [SetSubject(subject)], [SetHtml(html)], 0);
    AllRankAppend(s1 + [SetSubject(subject)] + [SetHtml(html)], [SetText(text)], 0);
    var p4 := s1 + [SetSubject(subject)] + [SetHtml(html)] + [SetText(text)];
    AllRankAppend(p4, s5, 0);
    AllRankAppend(p4 + s5, s6, 0);
    OrderedRuns(p4 + s5 + s6, RecipientEvents(To, to), RecipientEvents(Cc, cc), RecipientEvents(Bcc, bcc));
  }

  // ---------------------------------------------------------------------
  // Batch or single send
  // ---------------------------------------------------------------------

  /** A send is finalized as a batch exactly when the batch header is set, even to `false`. */
  lemma BatchWhenSet(domain: string, to: string, from: string, subject: string, html: string, text: string,
                     atts: seq<Prepared>, hs: seq<Header>)
    ensures Dispatch(domain, to, from, subject, html, text, atts, hs).FinalizeCall? <==> IsSet(Get(hs, BatchKey))
    ensures Dispatch(domain, to, from, subject, html, text, atts, hs).domain == domain
  {
  }

  /** A single send carries the staged files of its attachments, in order. */
  lemma SingleSendFiles(domain: string, to: string, from: string, subject: string, html: string, text: string,
                        atts: seq<Prepared>, hs: seq<Header>)
    requires !IsSet(Get(hs, BatchKey))
    ensures Dispatch(domain, to, from, subject, html, text, atts, hs).files
         == seq(|atts|, i requires 0 <= i < |atts| => atts[i].filePath)
  {
    AttachmentsInOrder(to, from, subject, html, text, atts, hs);
  }

  /**
   * The batch header reaches the service as a custom header only when it is
   * present with a null value: `isset` is false for it, so it is neither
   * taken as a batch request nor removed.
   */
  lemma BatchHeaderForwardedOnlyWhenNull(domain: string, to: string, from: string, subject: string, html: string,
                                         text: string, atts: seq<Prepared>, hs: seq<Header>)
    requires DistinctNames(hs)
    ensures forall v :: AddCustomHeader(BatchKey, v) in Dispatch(domain, to, from, subject, html, text, atts, hs).message
                        <==> Header(BatchKey, v) in hs && v == Null
  {
    if IsSet(Get(hs, BatchKey)) {
      var hs' := Unset(hs, BatchKey);
      UnsetMembers(hs, BatchKey);
      HeadersForwarded(to, from, subject, html, text, atts, hs');
      assert Header(BatchKey, Get(hs, BatchKey)) in hs;
    } else {
      HeadersForwarded(to, from, subject, html, text, atts, hs);
    }
  }
}
