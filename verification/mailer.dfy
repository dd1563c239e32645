/**
 * The mailer: stages attachments in temporary files, builds a Mailgun
 * message from a send request, sends it (or finalizes it as a batch), and
 * removes the temporary files again whether the send succeeded or raised.
 */
module Mailgunner {
  import opened Php
  import opened AddressParser
  import opened Files
  import opened Mailgun
  import opened Assembly

  /**
   * How a send ends: `Sent` for the success value, `Failed` for the `false`
   * returned after the request raised, `Raised` for an exception that
   * escapes while the attachments are being staged.
   */
  datatype Outcome = Sent | Failed | Raised

  /** One staged attachment: the open handle and the path of its temporary file. */
  datatype TempFile = TempFile(handle: Handle, path: Path)

  function Paths(ds: seq<TempFile>): set<Path> {
    set d | d in ds :: d.path
  }

  function Handles(ds: seq<TempFile>): set<Handle> {
    set d | d in ds :: d.handle
  }

  /** Closing and deleting one more registered file, as sets of what has been closed and deleted. */
  lemma RemoveOne(entries: seq<TempFile>, k: nat)
    requires k < |entries|
    ensures Paths(entries[..k + 1]) == Paths(entries[..k]) + {entries[k].path}
    ensures Handles(entries[..k + 1]) == Handles(entries[..k]) + {entries[k].handle}
  {
    assert entries[..k + 1] == entries[..k] + [entries[k]];
  }

  /** Removing keys one at a time removes them all. */
  lemma MinusStep<K, V>(m: map<K, V>, a: set<K>, x: K)
    ensures (m - a) - {x} == m - (a + {x})
  {
  }

  lemma Concat(a: seq<TempFile>, b: seq<TempFile>)
    ensures Paths(a + b) == Paths(a) + Paths(b)
    ensures Handles(a + b) == Handles(a) + Handles(b)
  {
  }

  /** The prefix one longer is the prefix followed by the next element. */
  lemma SliceNext<T>(s: seq<T>, i: nat)
    requires i < |s|
    ensures s[..i + 1] == s[..i] + [s[i]]
  {
  }

  /** Removing what was there before together with everything that was added leaves what was there before, less the same. */
  lemma Shrink<K, V>(m0: map<K, V>, m1: map<K, V>, r: set<K>, a: set<K>)
    requires m1 - a == m0
    ensures m1 - (r + a) == m0 - r
  {
  }

  /**
   * From files `f0` and handles `o0` to `f1` and `o1`: exactly the files
   * and handles of `added` were created, all of them new, and everything
   * that was there before is kept.
   */
  ghost predicate Grown(f0: map<Path, string>, o0: map<Handle, Path>,
                        f1: map<Path, string>, o1: map<Handle, Path>, added: seq<TempFile>)
  {
    && Paths(added) <= f1.Keys && Paths(added) !! f0.Keys && f1 - Paths(added) == f0
    && Handles(added) <= o1.Keys && Handles(added) !! o0.Keys && o1 - Handles(added) == o0
  }

  /** One more new file and handle keeps the growth relation. */
  lemma GrownStep(f0: map<Path, string>, o0: map<Handle, Path>,
                  f1: map<Path, string>, o1: map<Handle, Path>, added: seq<TempFile>, d: TempFile, c: string)
    requires Grown(f0, o0, f1, o1, added)
    requires d.path !in f1 && d.handle !in o1
    ensures Grown(f0, o0, f1[d.path := c], o1[d.handle := d.path], added + [d])
  {
    assert Paths(added + [d]) == Paths(added) + {d.path};
    assert Handles(added + [d]) == Handles(added) + {d.handle};
  }

  /**
   * `prepared` and `added` stage `attachments` from files `f0` and handles
   * `o0`, giving files `f1` and handles `o1`: one new temporary file per
   * attachment, in order, holding its contents and sent under its file
   * name, each registered with a new open handle.
   */
  ghost predicate Staged(attachments: seq<Attachment>, prepared: seq<Prepared>, added: seq<TempFile>,
                         f0: map<Path, string>, o0: map<Handle, Path>, f1: map<Path, string>, o1: map<Handle, Path>)
  {
    && |prepared| == |attachments| && |added| == |attachments|
    && (forall i :: 0 <= i < |prepared| ==> prepared[i].remoteName == attachments[i].filename)
    && (forall i :: 0 <= i < |prepared| ==> added[i].path == prepared[i].filePath)
    && (forall i :: 0 <= i < |prepared| ==>
          prepared[i].filePath in f1 && f1[prepared[i].filePath] == attachments[i].contents)
    && (forall i, j :: 0 <= i < j < |prepared| ==> prepared[i].filePath != prepared[j].filePath)
    && Grown(f0, o0, f1, o1, added)
  }

  /** Files with pairwise different paths have as many paths as there are files. */
  lemma {:induction false} DistinctPaths(added: seq<TempFile>)
    requires forall i, j :: 0 <= i < j < |added| ==> added[i].path != added[j].path
    ensures |Paths(added)| == |added|
  {
    if added != [] {
      var last := |added| - 1;
      var front := added[..last];
      assert added == front + [added[last]];
      assert Paths(added) == Paths(front) + {added[last].path};
      forall d | d in front
        ensures d.path != added[last].path
      {
        var k :| 0 <= k < |front| && front[k] == d;
      }
      DistinctPaths(front);
    }
  }

  /** Staging adds exactly one file per staged attachment. */
  lemma StagedCount(attachments: seq<Attachment>, prepared: seq<Prepared>, added: seq<TempFile>,
                    f0: map<Path, string>, o0: map<Handle, Path>, f1: map<Path, string>, o1: map<Handle, Path>)
    requires Staged(attachments, prepared, added, f0, o0, f1, o1)
    ensures |f1| == |f0| + |prepared|
  {
    DistinctPaths(added);
    CardGrown(f0, f1, Paths(added));
  }

  /** A map that grew by the new keys `a` and nothing else is larger by their number. */
  lemma CardGrown<K, V>(m0: map<K, V>, m1: map<K, V>, a: set<K>)
    requires a <= m1.Keys && a !! m0.Keys && m1 - a == m0
    ensures |m1| == |m0| + |a|
  {
    assert m1.Keys == m0.Keys + a by {
      forall k | k in m1.Keys ensures k in m0.Keys + a {
        if k !in a {
          assert k in (m1 - a).Keys;
        }
      }
    }
  }

  /** Staging one more attachment in a new file keeps the staging relation. */
  lemma StagedStep(attachments: seq<Attachment>, prepared: seq<Prepared>, added: seq<TempFile>,
                   f0: map<Path, string>, o0: map<Handle, Path>, f1: map<Path, string>, o1: map<Handle, Path>,
                   a: Attachment, d: TempFile)
    requires Staged(attachments, prepared, added, f0, o0, f1, o1)
    requires d.path !in f1 && d.handle !in o1
    ensures Staged(attachments + [a], prepared + [Prepared(d.path, a.filename)], added + [d],
                   f0, o0, f1[d.path := a.contents], o1[d.handle := d.path])
  {
    GrownStep(f0, o0, f1, o1, added, d, a.contents);
  }

  class Mailer {
    /** The temporary files opened for attachments and not yet removed, oldest first. */
    var tempFileHandles: seq<TempFile>
    /** How many times the temporary files have been cleaned up. */
    ghost var cleanups: nat
    /** Where temporary files are created. */
    const fs: FileSystem
    /** The Mailgun client messages are sent through. */
    const client: Client
    /** The configured sending domain (`api_domain`). */
    const domain: string

    /** Every registered temporary file exists and is held open by its handle. */
    ghost predicate Valid()
      reads this, fs
    {
      && fs.Valid()
      && forall d :: d in tempFileHandles ==> d.path in fs.files && d.handle in fs.open && fs.open[d.handle] == d.path
    }

    constructor(fs: FileSystem, client: Client, domain: string)
      requires fs.Valid()
      ensures Valid()
      ensures this.fs == fs && this.client == client && this.domain == domain
      ensures tempFileHandles == [] && cleanups == 0
    {
      this.fs := fs;
      this.client := client;
      this.domain := domain;
      tempFileHandles := [];
      cleanups := 0;
    }

    /**
     * `writeToTempFile`: creates a new temporary file holding `contents`,
     * keeps it open, registers it and returns its path. When `tempnam`
     * fails, the `fopen` on its result raises before anything is written
     * or registered: `ok` is false and nothing changes.
     */
    method WriteToTempFile(contents: string) returns (p: Path, ghost h: Handle, ok: bool)
      requires Valid()
      modifies this, fs
      ensures Valid()
      ensures ok <==> |old(fs.files)| < fs.capacity
      ensures ok ==> && p !in old(fs.files) && h !in old(fs.open)
                     && fs.files == old(fs.files)[p := contents]
                     && fs.open == old(fs.open)[h := p]
                     && tempFileHandles == old(tempFileHandles) + [TempFile(h, p)]
      ensures !ok ==> fs.files == old(fs.files) && fs.open == old(fs.open) && tempFileHandles == old(tempFileHandles)
      ensures cleanups == old(cleanups)
    {
      p, ok := fs.TempNam();
      if !ok {
        h := Handle(0);
        return;
      }
      var handle := fs.FOpen(p);
      fs.FWrite(handle, contents);
      tempFileHandles := tempFileHandles + [TempFile(handle, p)];
      h := handle;
    }

    /**
     * `prepareAttachments`: stages each attachment in a temporary file of
     * its own and returns, in order, where it was staged and the name it is
     * sent under. Staging fails only when `tempnam` finds the file system
     * full, so it succeeds exactly when all the attachments fit. When one
     * fails, the exception leaves the loop: `ok` is false and the
     * attachments before it stay staged and registered.
     */
    method PrepareAttachments(attachments: seq<Attachment>)
      returns (prepared: seq<Prepared>, ghost added: seq<TempFile>, ok: bool)
      requires Valid()
      modifies this, fs
      ensures Valid()
      ensures |prepared| <= |attachments|
      ensures ok <==> |prepared| == |attachments|
      ensures !ok ==> |fs.files| >= fs.capacity
      ensures ok <==> attachments == [] || |old(fs.files)| + |attachments| <= fs.capacity
      ensures |fs.files| == |old(fs.files)| + |prepared|
      ensures Staged(attachments[..|prepared|], prepared, added, old(fs.files), old(fs.open), fs.files, fs.open)
      ensures tempFileHandles == old(tempFileHandles) + added
      ensures cleanups == old(cleanups)
    {
      prepared, added, ok := [], [], true;
      var i := 0;
      while i < |attachments| && ok
        invariant 0 <= i <= |attachments|
        invariant Valid()
        invariant Staged(attachments[..i], prepared, added, old(fs.files), old(fs.open), fs.files, fs.open)
        invariant tempFileHandles == old(tempFileHandles) + added
        invariant cleanups == old(cleanups)
        invariant ok ==> i == 0 || |fs.files| <= fs.capacity
        invariant !ok ==> i < |attachments| && |fs.files| >= fs.capacity
        decreases |attachments| - i, ok
      {
        SliceNext(attachments, i);
        var next;
        ghost var d;
        next, d, ok := StageNext(attachments[..i], prepared, added, old(fs.files), old(fs.open), attachments[i]);
        if ok {
          prepared := prepared + [next];
          added := added + [d];
          i := i + 1;
        }
      }
      StagedCount(attachments[..i], prepared, added, old(fs.files), old(fs.open), fs.files, fs.open);
      if ok {
        assert attachments[..i] == attachments;
      }
    }

    /**
     * One pass of `prepareAttachments`' loop: stages attachment `a` after
     * those already staged, or changes nothing when `tempnam` fails.
     */
    method StageNext(ghost done: seq<Attachment>, prepared: seq<Prepared>, ghost added: seq<TempFile>,
                     ghost f0: map<Path, string>, ghost o0: map<Handle, Path>, a: Attachment)
      returns (next: Prepared, ghost d: TempFile, ok: bool)
      requires Valid()
      requires Staged(done, prepared, added, f0, o0, fs.files, fs.open)
      modifies this, fs
      ensures Valid()
      ensures ok <==> |old(fs.files)| < fs.capacity
      ensures ok ==> && Staged(done + [a], prepared + [next], added + [d], f0, o0, fs.files, fs.open)
                     && tempFileHandles == old(tempFileHandles) + [d]
                     && |fs.files| <= fs.capacity
      ensures !ok ==> && fs.files == old(fs.files) && fs.open == old(fs.open) && tempFileHandles == old(tempFileHandles)
                      && |fs.files| >= fs.capacity
      ensures cleanups == old(cleanups)
    {
      ghost var f1, o1 := fs.files, fs.open;
      var path;
      ghost var h;
      path, h, ok := WriteToTempFile(a.contents);
      next, d := Prepared(path, a.filename), TempFile(h, path);
      if ok {
        StagedStep(done, prepared, added, f0, o0, f1, o1, a, d);
      }
    }

    /**
     * `closeTempFileHandles`: closes and deletes every registered temporary
     * file, oldest first, and empties the registry.
     */
    method CloseTempFileHandles()
      requires Valid()
      modifies this, fs
      ensures Valid()
      ensures tempFileHandles == []
      ensures forall d :: d in old(tempFileHandles) ==> d.handle !in fs.open && d.path !in fs.files
      ensures fs.files == old(fs.files) - Paths(old(tempFileHandles))
      ensures fs.open == old(fs.open) - Handles(old(tempFileHandles))
      ensures cleanups == old(cleanups) + 1
    {
      ghost var entries := tempFileHandles;
      ghost var k := 0;
      while tempFileHandles != []
        invariant fs.Valid()
        invariant 0 <= k <= |entries|
        invariant tempFileHandles == entries[k..]
        invariant fs.files == old(fs.files) - Paths(entries[..k])
        invariant fs.open == old(fs.open) - Handles(entries[..k])
        invariant cleanups == old(cleanups)
        decreases |tempFileHandles|
      {
        var d := tempFileHandles[0];
        RemoveOne(entries, k);
        MinusStep(old(fs.files), Paths(entries[..k]), d.path);
        MinusStep(old(fs.open), Handles(entries[..k]), d.handle);
        fs.FClose(d.handle);
        fs.Unlink(d.path);
        tempFileHandles := tempFileHandles[1..];
        k := k + 1;
      }
      assert entries[..k] == entries;
      cleanups := cleanups + 1;
    }

    /**
     * `buildMessage`: sender, subject, both bodies, attachments, custom
     * headers, then To, Cc and Bcc recipients, on the given builder.
     */
    method BuildMessage(builder: MessageBuilder, to: string, from: string, subject: string, content: string,
                        plainContent: string, attachments: seq<Prepared>, headers: seq<Header>)
      modifies builder
      ensures builder.events == old(builder.events) + BuildTrace(to, from, subject, content, plainContent, attachments, headers)
    {
      ghost var e0 := builder.events;
      var senders := Parse(from);
      AddSenders(builder, senders);
      builder.SetSubjectLine(subject);
      builder.SetHtmlBody(content);
      builder.SetTextBody(plainContent);
      AddAttachments(builder, attachments);
      var ccAddresses := ListIn(headers, "Cc");
      var bccAddresses := ListIn(headers, "Bcc");
      var custom := Unset(headers, "Cc");
      custom := Unset(custom, "Bcc");
      AddHeaders(builder, custom);
      ghost var head := FromEvents(senders) + [SetSubject(subject)] + [SetHtml(content)] + [SetText(plainContent)]
                        + AttachmentEvents(attachments) + HeaderEvents(custom);
      Assoc6(e0, FromEvents(senders), [SetSubject(subject)], [SetHtml(content)], [SetText(plainContent)],
             AttachmentEvents(attachments), HeaderEvents(custom));
      assert builder.events == e0 + head;
      var toList := Parse(to);
      var ccList := Parse(ccAddresses);
      var bccList := Parse(bccAddresses);
      AddRecipients(builder, To, toList);
      AddRecipients(builder, Cc, ccList);
      AddRecipients(builder, Bcc, bccList);
      Assoc3(e0, head, RecipientEvents(To, toList), RecipientEvents(Cc, ccList), RecipientEvents(Bcc, bccList));
    }

    /**
     * `sendMessage`: stages the attachments, picks a batch builder when the
     * batch header is set (and drops that header) or a single builder
     * otherwise, builds the message, then finalizes the batch or sends the
     * message once, its attachments read from the staged files. The
     * temporary files are cleaned up exactly once, after a successful send
     * or after the send raised, in which case the outcome is `Failed`. A
     * failure while staging happens before the guarded part: it escapes
     * (`Raised`) with no request made and nothing cleaned up.
     */
    method SendMessage(to: string, from: string, subject: string, content: string, plainContent: string,
                       attachments: seq<Attachment>, headers: seq<Header>)
      returns (outcome: Outcome, ghost staged: seq<Prepared>, ghost added: seq<TempFile>, ghost disk: map<Path, string>)
      requires Valid()
      modifies this, fs, client
      ensures Valid()
      ensures |staged| <= |attachments| && (outcome == Raised <==> |staged| < |attachments|)
      ensures outcome == Raised <==> attachments != [] && |old(fs.files)| + |attachments| > fs.capacity
      ensures forall i :: 0 <= i < |staged| ==> staged[i].remoteName == attachments[i].filename
      ensures forall i :: 0 <= i < |staged| ==> staged[i].filePath !in old(fs.files)
      ensures forall i, j :: 0 <= i < j < |staged| ==> staged[i].filePath != staged[j].filePath
      ensures outcome == Raised ==>
        && |fs.files| >= fs.capacity
        && client.log == old(client.log) && client.read == old(client.read) && cleanups == old(cleanups)
        && tempFileHandles == old(tempFileHandles) + added
        && Staged(attachments[..|staged|], staged, added, old(fs.files), old(fs.open), fs.files, fs.open)
      ensures outcome != Raised ==>
        && client.log == old(client.log) + [Dispatch(domain, to, from, subject, content, plainContent, staged, headers)]
        && client.read == old(client.read) + [disk]
        && (forall i :: 0 <= i < |staged| ==> staged[i].filePath in disk && disk[staged[i].filePath] == attachments[i].contents)
        && (outcome == Sent <==> client.reachable)
        && tempFileHandles == [] && cleanups == old(cleanups) + 1
        && fs.files == old(fs.files) - Paths(old(tempFileHandles))
        && fs.open == old(fs.open) - Handles(old(tempFileHandles))
    {
      ghost var r0, f0, o0 := tempFileHandles, fs.files, fs.open;
      var prepared, ok;
      prepared, added, ok := PrepareAttachments(attachments);
      staged := prepared;
      assert forall i :: 0 <= i < |staged| ==> added[i] in added;
      if !ok {
        outcome := Raised;
        disk := map[];
        return;
      }
      assert attachments[..|prepared|] == attachments;
      ghost var r1, f1, o1 := tempFileHandles, fs.files, fs.open;
      Concat(r0, added);
      Shrink(f0, f1, Paths(r0), Paths(added));
      Shrink(o0, o1, Handles(r0), Handles(added));
      disk := fs.files;
      var raised := Deliver(to, from, subject, content, plainContent, prepared, headers);
      // The files are cleaned up in the handler when the send raised, and
      // after it otherwise; either way exactly once.
      CloseTempFileHandles();
      outcome := if raised then Failed else Sent;
    }

    /**
     * The guarded part of `sendMessage`: picks a batch builder when the
     * batch header is set (and drops that header) or a single builder
     * otherwise, builds the message, then finalizes the batch or sends the
     * message once, reading its files from `fs`; `raised` when the service
     * could not be reached.
     */
    method Deliver(to: string, from: string, subject: string, content: string, plainContent: string,
                   prepared: seq<Prepared>, headers: seq<Header>) returns (raised: bool)
      modifies client
      ensures client.log == old(client.log) + [Dispatch(domain, to, from, subject, content, plainContent, prepared, headers)]
      ensures client.read == old(client.read) + [fs.files]
      ensures raised == !client.reachable
    {
      var builder: MessageBuilder;
      var hs := headers;
      if IsSet(Get(headers, BatchKey)) {
        builder := client.BatchMessage(domain);
        hs := Unset(headers, BatchKey);
      } else {
        builder := client.MessageBuilder();
      }
      BuildMessage(builder, to, from, subject, content, plainContent, prepared, hs);
      ghost var message := BuildTrace(to, from, subject, content, plainContent, prepared, hs);
      assert builder.events == message;
      if builder.batch {
        raised := builder.Finalize(fs);
      } else {
        raised := client.SendMessage(domain, builder.events, FilesOf(builder.events), fs);
      }
    }

    /** `sendPlain`: a send with an empty HTML body. */
    method SendPlain(to: string, from: string, subject: string, plainContent: string,
                     attachments: seq<Attachment>, headers: seq<Header>)
      returns (outcome: Outcome, ghost staged: seq<Prepared>, ghost added: seq<TempFile>, ghost disk: map<Path, string>)
      requires Valid()
      modifies this, fs, client
      ensures Valid()
      ensures |staged| <= |attachments| && (outcome == Raised <==> |staged| < |attachments|)
      ensures outcome == Raised <==> attachments != [] && |old(fs.files)| + |attachments| > fs.capacity
      ensures forall i :: 0 <= i < |staged| ==> staged[i].remoteName == attachments[i].filename
      ensures forall i :: 0 <= i < |staged| ==> staged[i].filePath !in old(fs.files)
      ensures forall i, j :: 0 <= i < j < |staged| ==> staged[i].filePath != staged[j].filePath
      ensures outcome == Raised ==>
        && |fs.files| >= fs.capacity
        && client.log == old(client.log) && client.read == old(client.read) && cleanups == old(cleanups)
        && tempFileHandles == old(tempFileHandles) + added
        && Staged(attachments[..|staged|], staged, added, old(fs.files), old(fs.open), fs.files, fs.open)
      ensures outcome != Raised ==>
        && client.log == old(client.log) + [Dispatch(domain, to, from, subject, "", plainContent, staged, headers)]
        && client.read == old(client.read) + [disk]
        && (forall i :: 0 <= i < |staged| ==> staged[i].filePath in disk && disk[staged[i].filePath] == attachments[i].contents)
        && (outcome == Sent <==> client.reachable)
        && tempFileHandles == [] && cleanups == old(cleanups) + 1
        && fs.files == old(fs.files) - Paths(old(tempFileHandles))
        && fs.open == old(fs.open) - Handles(old(tempFileHandles))
    {
      outcome, staged, added, disk := SendMessage(to, from, subject, "", plainContent, attachments, headers);
    }

    /** `sendHTML`: a send with an HTML body and a text body (empty when the caller gives none). */
    method SendHtml(to: string, from: string, subject: string, htmlContent: string,
                    attachments: seq<Attachment>, headers: seq<Header>, plainContent: string)
      returns (outcome: Outcome, ghost staged: seq<Prepared>, ghost added: seq<TempFile>, ghost disk: map<Path, string>)
      requires Valid()
      modifies this, fs, client
      ensures Valid()
      ensures |staged| <= |attachments| && (outcome == Raised <==> |staged| < |attachments|)
      ensures outcome == Raised <==> attachments != [] && |old(fs.files)| + |attachments| > fs.capacity
      ensures forall i :: 0 <= i < |staged| ==> staged[i].remoteName == attachments[i].filename
      ensures forall i :: 0 <= i < |staged| ==> staged[i].filePath !in old(fs.files)
      ensures forall i, j :: 0 <= i < j < |staged| ==> staged[i].filePath != staged[j].filePath
      ensures outcome == Raised ==>
        && |fs.files| >= fs.capacity
        && client.log == old(client.log) && client.read == old(client.read) && cleanups == old(cleanups)
        && tempFileHandles == old(tempFileHandles) + added
        && Staged(attachments[..|staged|], staged, added, old(fs.files), old(fs.open), fs.files, fs.open)
      ensures outcome != Raised ==>
        && client.log == old(client.log) + [Dispatch(domain, to, from, subject, htmlContent, plainContent, staged, headers)]
        && client.read == old(client.read) + [disk]
        && (forall i :: 0 <= i < |staged| ==> staged[i].filePath in disk && disk[staged[i].filePath] == attachments[i].contents)
        && (outcome == Sent <==> client.reachable)
        && tempFileHandles == [] && cleanups == old(cleanups) + 1
        && fs.files == old(fs.files) - Paths(old(tempFileHandles))
        && fs.open == old(fs.open) - Handles(old(tempFileHandles))
    {
      outcome, staged, added, disk := SendMessage(to, from, subject, htmlContent, plainContent, attachments, headers);
    }
  }

  /** Appending pieces one at a time appends them all at once. */
  lemma Assoc6(e: seq<Event>, a: seq<Event>, b: seq<Event>, c: seq<Event>, d: seq<Event>, f: seq<Event>, g: seq<Event>)
    ensures e + a + b + c + d + f + g == e + (a + b + c + d + f + g)
  {
  }

  lemma Assoc3(e: seq<Event>, h: seq<Event>, a: seq<Event>, b: seq<Event>, c: seq<Event>)
    ensures e + h + a + b + c == e + (h + a + b + c)
  {
  }

  /** The `setFromAddress` loop: one call per parsed sender, in order. */
  method AddSenders(builder: MessageBuilder, senders: seq<Entry>)
    modifies builder
    ensures builder.events == old(builder.events) + FromEvents(senders)
  {
    var i := 0;
    while i < |senders|
      invariant 0 <= i <= |senders|
      invariant builder.events == old(builder.events) + FromEvents(senders[..i])
    {
      assert FromEvents(senders[..i + 1]) == FromEvents(senders[..i]) + [SetFrom(senders[i].email, senders[i].name)];
      builder.SetFromAddress(senders[i].email, senders[i].name);
      i := i + 1;
    }
    assert senders[..i] == senders;
  }

  /** The `addAttachment` loop: one call per prepared attachment, in order. */
  method AddAttachments(builder: MessageBuilder, attachments: seq<Prepared>)
    modifies builder
    ensures builder.events == old(builder.events) + AttachmentEvents(attachments)
  {
    var i := 0;
    while i < |attachments|
      invariant 0 <= i <= |attachments|
      invariant builder.events == old(builder.events) + AttachmentEvents(attachments[..i])
    {
      assert AttachmentEvents(attachments[..i + 1])
          == AttachmentEvents(attachments[..i]) + [AddAttachment(attachments[i].filePath, attachments[i].remoteName)];
      builder.AddAttachmentFile(attachments[i].filePath, attachments[i].remoteName);
      i := i + 1;
    }
    assert attachments[..i] == attachments;
  }

  /** The `addCustomHeader` loop: one call per header, in order. */
  method AddHeaders(builder: MessageBuilder, headers: seq<Header>)
    modifies builder
    ensures builder.events == old(builder.events) + HeaderEvents(headers)
  {
    var i := 0;
    while i < |headers|
      invariant 0 <= i <= |headers|
      invariant builder.events == old(builder.events) + HeaderEvents(headers[..i])
    {
      assert HeaderEvents(headers[..i + 1]) == HeaderEvents(headers[..i]) + [AddCustomHeader(headers[i].name, headers[i].value)];
      builder.AddHeader(headers[i].name, headers[i].value);
      i := i + 1;
    }
    assert headers[..i] == headers;
  }

  /** The `addToRecipient`, `addCcRecipient` and `addBccRecipient` loops: one call per entry, in order. */
  method AddRecipients(builder: MessageBuilder, kind: Kind, entries: seq<Entry>)
    modifies builder
    ensures builder.events == old(builder.events) + RecipientEvents(kind, entries)
  {
    var i := 0;
    while i < |entries|
      invariant 0 <= i <= |entries|
      invariant builder.events == old(builder.events) + RecipientEvents(kind, entries[..i])
    {
      assert RecipientEvents(kind, entries[..i + 1])
          == RecipientEvents(kind, entries[..i]) + [AddRecipient(kind, entries[i].email, entries[i].name)];
      builder.AddRecipientAddress(kind, entries[i].email, entries[i].name);
      i := i + 1;
    }
    assert entries[..i] == entries;
  }
}
