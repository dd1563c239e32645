/**
 * The parts of the Mailgun SDK the mailer talks to, seen from outside.
 * A message builder is an object that records the calls made on it, in
 * order; a batch builder also holds the client it will send through. The
 * client records every message handed to it and either accepts it or
 * raises, depending on whether the service can be reached.
 */
module Mailgun {
  import opened Php
  import opened Files

  /** The three recipient lists of a message. */
  datatype Kind = To | Cc | Bcc

  /** One call made on a message builder. */
  datatype Event =
    | SetFrom(email: string, name: string)
    | SetSubject(subject: string)
    | SetHtml(html: string)
    | SetText(text: string)
    | AddAttachment(path: Path, remoteName: string)
    | AddCustomHeader(header: string, value: Value)
    | AddRecipient(kind: Kind, email: string, name: string)

  /** One request reaching the service: a single message, or the final part of a batch. */
  datatype Call =
    | SendCall(domain: string, message: seq<Event>, files: seq<Path>)
    | FinalizeCall(domain: string, message: seq<Event>)

  /** Which builder call an event is, with recipients told apart by list. */
  datatype Slot = FromSlot | SubjectSlot | HtmlSlot | TextSlot | AttachmentSlot | HeaderSlot | RecipientSlot(kind: Kind)

  function SlotOf(e: Event): Slot {
    match e
    case SetFrom(_, _) => FromSlot
    case SetSubject(_) => SubjectSlot
    case SetHtml(_) => HtmlSlot
    case SetText(_) => TextSlot
    case AddAttachment(_, _) => AttachmentSlot
    case AddCustomHeader(_, _) => HeaderSlot
    case AddRecipient(k, _, _) => RecipientSlot(k)
  }

  /** The events of `t` in slot `c`, in their order in `t`. */
  function Select(t: seq<Event>, c: Slot): (r: seq<Event>)
    ensures |r| <= |t|
    ensures forall e :: e in r <==> e in t && SlotOf(e) == c
  {
    if t == [] then []
    else
      assert forall e :: e in t <==> e == t[0] || e in t[1..];
      (if SlotOf(t[0]) == c then [t[0]] else []) + Select(t[1..], c)
  }

  /** Selecting from two traces one after the other selects from each in turn. */
  lemma {:induction false} SelectAppend(a: seq<Event>, b: seq<Event>, c: Slot)
    ensures Select(a + b, c) == Select(a, c) + Select(b, c)
  {
    if a == [] {
      assert a + b == b;
    } else {
      assert (a + b)[1..] == a[1..] + b;
      SelectAppend(a[1..], b, c);
    }
  }

  /** `t` when slot `c` is `d`, nothing otherwise. */
  function Pick(c: Slot, d: Slot, t: seq<Event>): seq<Event> {
    if c == d then t else []
  }

  /** A trace whose events all sit in slot `d` is selected whole by `d` and not at all by any other slot. */
  lemma {:induction false} SelectUniform(t: seq<Event>, d: Slot, c: Slot)
    requires forall i :: 0 <= i < |t| ==> SlotOf(t[i]) == d
    ensures Select(t, c) == Pick(c, d, t)
  {
    if t != [] {
      SelectUniform(t[1..], d, c);
      assert SlotOf(t[0]) == d;
      assert Select(t, c) == (if SlotOf(t[0]) == c then [t[0]] else []) + Select(t[1..], c);
      assert t == [t[0]] + t[1..];
    }
  }

  /** The files of a message (`getFiles()`): the attached paths, in the order they were added. */
  function FilesOf(t: seq<Event>): seq<Path> {
    var a := Select(t, AttachmentSlot);
    seq(|a|, i requires 0 <= i < |a| => if a[i].AddAttachment? then a[i].path else Path(0))
  }

  class Client {
    /** Whether requests to the service succeed; a request that fails raises. */
    const reachable: bool
    /** Every request made through this client, in order. */
    var log: seq<Call>
    /** For each request, the files on disk when it was made, which is where the attachments are read from. */
    ghost var read: seq<map<Path, string>>

    constructor(reachable: bool)
      ensures this.reachable == reachable && log == [] && read == []
    {
      this.reachable := reachable;
      log := [];
      read := [];
    }

    /** `BatchMessage($domain)`: an empty batch builder that will send through this client. */
    method BatchMessage(domain: string) returns (b: MessageBuilder)
      ensures fresh(b)
      ensures b.batch && b.client == this && b.domain == domain && b.events == []
    {
      b := new MessageBuilder(true, this, domain);
    }

    /** `MessageBuilder()`: an empty single-message builder. */
    method MessageBuilder() returns (b: MessageBuilder)
      ensures fresh(b)
      ensures !b.batch && b.client == this && b.events == []
    {
      b := new MessageBuilder(false, this, "");
    }

    /**
     * `sendMessage($domain, $message, $files)`: one request, whose files are
     * read from `disk`; `raised` when the service cannot be reached.
     */
    method SendMessage(domain: string, message: seq<Event>, files: seq<Path>, disk: FileSystem) returns (raised: bool)
      modifies this
      ensures log == old(log) + [SendCall(domain, message, files)]
      ensures read == old(read) + [disk.files]
      ensures raised == !reachable
    {
      log := log + [SendCall(domain, message, files)];
      read := read + [disk.files];
      raised := !reachable;
    }
  }

  class MessageBuilder {
    /** Whether this is a batch builder. */
    const batch: bool
    /** The client a batch is sent through. */
    const client: Client
    /** The domain a batch is sent for. */
    const domain: string
    /** The calls made on this builder so far, in order. */
    var events: seq<Event>

    constructor(batch: bool, client: Client, domain: string)
      ensures this.batch == batch && this.client == client && this.domain == domain
      ensures events == []
    {
      this.batch := batch;
      this.client := client;
      this.domain := domain;
      events := [];
    }

    method SetFromAddress(email: string, name: string)
      modifies this
      ensures events == old(events) + [SetFrom(email, name)]
    {
      events := events + [SetFrom(email, name)];
    }

    method SetSubjectLine(subject: string)
      modifies this
      ensures events == old(events) + [SetSubject(subject)]
    {
      events := events + [SetSubject(subject)];
    }

    method SetHtmlBody(html: string)
      modifies this
      ensures events == old(events) + [SetHtml(html)]
    {
      events := events + [SetHtml(html)];
    }

    method SetTextBody(text: string)
      modifies this
      ensures events == old(events) + [SetText(text)]
    {
      events := events + [SetText(text)];
    }

    method AddAttachmentFile(path: Path, remoteName: string)
      modifies this
      ensures events == old(events) + [AddAttachment(path, remoteName)]
    {
      events := events + [AddAttachment(path, remoteName)];
    }

    method AddHeader(header: string, value: Value)
      modifies this
      ensures events == old(events) + [AddCustomHeader(header, value)]
    {
      events := events + [AddCustomHeader(header, value)];
    }

    /** `addToRecipient`, `addCcRecipient` and `addBccRecipient`, told apart by `kind`. */
    method AddRecipientAddress(kind: Kind, email: string, name: string)
      modifies this
      ensures events == old(events) + [AddRecipient(kind, email, name)]
    {
      events := events + [AddRecipient(kind, email, name)];
    }

    /**
     * `finalize()` on a batch: sends what the batch holds, its files read
     * from `disk`; `raised` when the service cannot be reached.
     */
    method Finalize(disk: FileSystem) returns (raised: bool)
      requires batch
      modifies client
      ensures client.log == old(client.log) + [FinalizeCall(domain, events)]
      ensures client.read == old(client.read) + [disk.files]
      ensures raised == !client.reachable
    {
      client.log := client.log + [FinalizeCall(domain, events)];
      client.read := client.read + [disk.files];
      raised := !client.reachable;
    }
  }
}
