# Mailgunner mailer, modelled in Dafny

This project models the `Mailer` class of the SilverStripe Mailgunner module,
`src/Mailer.php`. The class turns a SilverStripe "send email" call into calls on
a Mailgun message builder. The model covers four parts:

- **Address lists.** `parseAddresses` runs one regular expression over a list
  such as `"Joe" <joe@x>; bob@y` and stores each match as email => name in an
  ordered PHP array. `address_parser.dfy` writes the expression out as the
  scanner the regex engine runs for it: greedy runs, with one backtracking case.
  `address_properties.dfy` proves what the parser does on the shapes of entry
  people write, that repeated emails keep their first position and take their
  last name, and a round trip through a written list: entries written as
  `email`, `Name <email>`, `Name<email>`, `"Name" <email>` or `'Name'<email>`,
  separated by `, ` or `; `, parse back to themselves when the emails are
  distinct, and the emails and names are free of the delimiters `<>,;"'`,
  with non-empty emails and names that do not start or end with whitespace.
  `address_examples.dfy` proves the documented parse results.
- **Message assembly.** `buildMessage` makes ordered calls on a builder. The
  builder is a class that records each call as an event (`mailgun.dfy`).
  `assembly.dfy` defines the event trace a build must produce and proves its
  properties:
  - recipients come last, with To before Cc before Bcc;
  - each body is set once;
  - `Cc`/`Bcc` headers become recipients rather than custom headers;
  - batch or single send follows `isset` on the batch header.
- **Sending.** `sendMessage`, `sendPlain` and `sendHTML` stage the attachments,
  choose a batch or a single builder, build, and then finalize or send. The
  request reads each attachment from its temporary file, which still holds the
  attachment's contents at that moment. The temporary files are cleaned up
  exactly once afterwards, whether the send succeeded or raised. A failure
  while staging happens before the `try` block: it escapes with no request
  and no cleanup, leaving the files staged so far registered.
- **Temporary files.** `writeToTempFile`, `prepareAttachments` and
  `closeTempFileHandles` maintain the `tempFileHandles` registry. They run over
  an abstract file system (`files.dfy`) whose `tempnam` and `fopen` hand out
  new names, and whose `tempnam` fails once the file system is full.

`mailer.dfy` holds the class `Mailer`: the registry field, the staging and
cleanup methods with their loop invariants, `BuildMessage` on a builder object,
and the send methods.

In these places the code behaves in ways a reader may not expect; the model
follows the code:

- Repeated emails are not kept twice. The parsed list is a PHP array keyed by
  email, so a repeated email keeps its first position and takes its last name
  (`StoreOrder`, `StoreNames`).
- Whitespace-only input is not an empty list. A lone space parses to the key
  `" "` (`ParseBlank`).
- The text between angle brackets is only stripped of `<` and `>`; it is not
  trimmed.
- A `from` list that parses to nothing gives no sender call. The raw string is
  not used as a fallback (`SendersFromParse`).
- The subject and both bodies are set once each, even when empty
  (`BodiesSetOnce`).
- Batch mode is chosen by `isset`, so a batch header set to `false` still
  selects a batch, and one set to `null` is forwarded as a custom header.

## Model

| member | source | states |
|---|---|---|
| Php.AsString | src/Mailer.php:183-184 | a header text reads as itself, an unset header and `false` as `""`, and `true` as `"1"`, as the Cc/Bcc values reach the parser |
| Php.Get | src/Mailer.php:113 | a set value read under a key is in the headers, and it is that key's value when keys are distinct |
| Php.UnsetMembers | src/Mailer.php:187-188 | `unset` keeps exactly the headers with other names, and distinct names stay distinct |
| Php.UnsetOrder | src/Mailer.php:187-188 | any two kept headers appear in `unset`'s result in their original order, at the positions returned |
| Php.Trim | src/Mailer.php:231 | the result is the contiguous slice of the input left once the leading and trailing characters in the set are cut: everything before and after it is in the set, and its own first and last characters are not |
| Php.TrimBrackets | src/Mailer.php:230 | trimming `<` and `>` off `<x>` gives back exactly `x` |
| AddressParser.Span | src/Mailer.php:223 | a greedy character-class run ends at the first character outside the class |
| AddressParser.BracketEnd | src/Mailer.php:223 | the optional `<[^><,]+>` group is either empty or a well-formed bracket group |
| AddressParser.MatchWithName | src/Mailer.php:223 | the match after a name run has that run as group 1, a well-formed group 2, and covers at least the run |
| AddressParser.MatchAt | src/Mailer.php:223 | a match at a position is well formed and non-empty; one exists when the text starts with whitespace or a name character, and none when it starts with anything but those or a quote |
| AddressParser.Scan | src/Mailer.php:224-225 | every match of `preg_match_all` is well formed, and there are no more matches than characters |
| AddressParser.EntryKinds | src/Mailer.php:226-232 | `EntryOf` on a bare match (`empty` group 2) stores the untrimmed name run with an empty name; on a bracketed one it stores the text between the brackets, non-empty and free of `<>,`, with a trimmed name free of `<>,;"'` |
| AddressParser.Upsert | src/Mailer.php:228 | assigning an existing key keeps its position and replaces its entry; a new key goes last |
| AddressParser.UpsertEmails | src/Mailer.php:228 | after an assignment, keys stay distinct, with the new key appended only when it is new |
| AddressParser.UpsertCases | src/Mailer.php:231 | after an assignment the array holds the new entry and old entries with other keys only |
| AddressParser.Store | src/Mailer.php:221-233 | the stored array has distinct keys, only entries from the matches, and exactly the keys of the matches |
| AddressParser.EntriesShape | src/Mailer.php:226-232 | every entry has a non-empty key free of `<>,` and a name free of `<>,;"'` with no whitespace at either end |
| AddressParser.Parse | src/Mailer.php:219-237 | `""` parses to the empty array; keys are distinct and never empty; keys and names never contain the delimiters; names are trimmed |
| AddressProperties.StoreOrder | src/Mailer.php:224-233 | the stored keys are the distinct emails in order of first occurrence |
| AddressProperties.StoreNames | src/Mailer.php:224-233 | each stored email carries the name of its last occurrence |
| AddressProperties.ParseRepeatedEmails | src/Mailer.php:219-237 | `parseAddresses` stores a repeated email once, at its first position, with its last name |
| AddressProperties.UpsertNew | src/Mailer.php:228 | assigning a new key appends the entry |
| AddressProperties.StoreDistinct | src/Mailer.php:224-233 | matches with distinct emails are stored as they are |
| AddressProperties.ScanSkip | src/Mailer.php:223 | no match starts on `,`, `;`, `<` or `>`; the search moves past them |
| AddressProperties.MatchBare | src/Mailer.php:223 | whitespace then a bare address, followed by a separator, is one match whose name run is the address and whose group 2 is empty |
| AddressProperties.ScanBare | src/Mailer.php:223-225 | a bare address is one match, and scanning continues after it |
| AddressProperties.ScanNamed | src/Mailer.php:223-225 | whitespace, a name in `"`, in `'` or unquoted, an optional space and `<email>` are one match: group 1 is the name (with the space when unquoted) and group 2 is `<email>` |
| AddressProperties.ScanEntry | src/Mailer.php:223-232 | an entry written in any of the five forms, followed by the end or a `,`/`;`, scans to one match whose stored entry is that entry |
| AddressProperties.ScanFormat | src/Mailer.php:223-232 | a list of written entries, each followed by `, ` or `; `, scans to those entries, in order |
| AddressProperties.ParseFormat | src/Mailer.php:219-237 | round trip: writing entries with distinct emails in any of the five forms, separated by `, ` or `; `, and parsing the result gives back the entries, in order |
| AddressExamples.ParseBareAddress | tests/MailerTest.php:358-359 | `joe.bloggs@example.com` parses to that key with an empty name |
| AddressExamples.ParseNamedAddress | tests/MailerTest.php:361-362 | `Joe Bloggs <joe.bloggs@example.com>` parses to the email with name `Joe Bloggs` |
| AddressExamples.ParseAddressPair | tests/MailerTest.php:364-365 | two comma-separated bare addresses parse to both keys, in order, with empty names |
| AddressExamples.ScanMixedList | tests/MailerTest.php:368-369 | the five-entry mixed list scans to five matches, one per entry |
| AddressExamples.ParseMixedList | tests/MailerTest.php:367-378 | the mixed list parses to the five documented entries, in order |
| AddressExamples.ParseBlank | src/Mailer.php:223-228 | a lone space is not an empty list: it is stored as the key `" "` |
| Files.FileSystem.TempNam | src/Mailer.php:270 | `tempnam` fails exactly when the file system is full, and changes nothing then; otherwise it creates an empty file under a name that did not exist |
| Files.FileSystem.FOpen | src/Mailer.php:271 | `fopen` returns a new handle open on that file, and the files are unchanged |
| Files.FileSystem.FWrite | src/Mailer.php:272 | `fwrite` at the start of a file overwrites its first characters |
| Files.Overwrite | src/Mailer.php:272 | written data lands at the start of the file, and the rest is kept |
| Files.FileSystem.FClose | src/Mailer.php:288 | `fclose` closes exactly that handle |
| Files.FileSystem.Unlink | src/Mailer.php:289 | `unlink` removes exactly that file |
| Mailgun.Client.BatchMessage | src/Mailer.php:114 | a new, empty batch builder for the domain, sending through this client |
| Mailgun.Client.MessageBuilder | src/Mailer.php:117 | a new, empty single-message builder |
| Mailgun.Client.SendMessage | src/Mailer.php:126 | one request with the message and files is made and the files on disk at that moment are recorded; it raises exactly when the service is unreachable |
| Mailgun.MessageBuilder.SetFromAddress | src/Mailer.php:170 | records one sender call |
| Mailgun.MessageBuilder.SetSubjectLine | src/Mailer.php:173 | records one subject call |
| Mailgun.MessageBuilder.SetHtmlBody | src/Mailer.php:174 | records one HTML-body call |
| Mailgun.MessageBuilder.SetTextBody | src/Mailer.php:175 | records one text-body call |
| Mailgun.MessageBuilder.AddAttachmentFile | src/Mailer.php:179 | records one attachment call |
| Mailgun.MessageBuilder.AddHeader | src/Mailer.php:192 | records one custom-header call |
| Mailgun.MessageBuilder.AddRecipientAddress | src/Mailer.php:199-209 | records one To, Cc or Bcc call |
| Mailgun.MessageBuilder.Finalize | src/Mailer.php:124 | one batch request with everything recorded is made and the files on disk at that moment are recorded; it raises exactly when the service is unreachable |
| Mailgun.Select | src/Mailer.php:167-210 | the calls selected for one kind are exactly the trace's calls of that kind, and there are no more of them than calls in the trace |
| Assembly.ListIn | src/Mailer.php:183-184 | a `Cc`/`Bcc` text header is read as is, and an unset one as `""` |
| Assembly.CustomHeaders | src/Mailer.php:187-193 | the forwarded headers are exactly the headers not named `Cc` or `Bcc` |
| Assembly.CustomHeadersOrder | src/Mailer.php:187-193 | any two forwarded headers keep the order they had in the input headers |
| Assembly.BodiesSetOnce | src/Mailer.php:173-175 | subject, HTML body and text body are each set exactly once, with the given value, even when empty |
| Assembly.SendersFromParse | src/Mailer.php:168-171 | one sender call per parsed `from` entry, in order: none for an empty list, several for several |
| Assembly.AttachmentsInOrder | src/Mailer.php:178-180 | one attachment call per prepared attachment, in order; the message's files are their paths |
| Assembly.HeadersForwarded | src/Mailer.php:183-193 | every header except `Cc` and `Bcc` becomes exactly one custom-header call, in order and unchanged; `Cc` and `Bcc` never do |
| Assembly.RecipientsFromParse | src/Mailer.php:197-210 | To, Cc and Bcc calls are the parsed `to` and the parsed `Cc`/`Bcc` values, in order; an unset `Cc` or `Bcc` gives none |
| Assembly.RecipientsLast | src/Mailer.php:195-210 | every non-recipient call precedes every recipient call, and To precedes Cc, which precedes Bcc |
| Assembly.TraceOrdered | src/Mailer.php:167-210 | the same rank order holds for the trace of any lists |
| Assembly.BatchWhenSet | src/Mailer.php:113-127 | `Dispatch` is a batch finalize exactly when `isset` holds for the batch header, even when it is `false`; the domain is passed on |
| Assembly.SingleSendFiles | src/Mailer.php:126 | a single send carries `getFiles()` (`FilesOf`): the staged file paths, in attachment order |
| Assembly.BatchHeaderForwardedOnlyWhenNull | src/Mailer.php:113-115 | the batch header reaches the service as a custom header exactly when it is present with a null value |
| Mailgunner.Mailer.constructor | src/Mailer.php:44 | a mailer starts with an empty temp-file registry |
| Mailgunner.Mailer.WriteToTempFile | src/Mailer.php:268-280 | when `tempnam` succeeds, a new file holding `contents` is created and kept open by a new handle, one registry entry with that handle and path is appended, and its path is returned; when it fails, nothing changes |
| Mailgunner.StagedStep | src/Mailer.php:252-258 | staging one more attachment keeps the staging relation |
| Mailgunner.Mailer.PrepareAttachments | src/Mailer.php:248-262 | one prepared entry per attachment, in order, up to the first that fails to stage: a new file of its own holding its contents, sent under its file name, registered with a new open handle; nothing else in the file system changes, which grows by one file per staged attachment; it succeeds exactly when every attachment is staged, and that is exactly when the file system has room for all of them: it fails only when `tempnam` finds the file system full |
| Mailgunner.Mailer.CloseTempFileHandles | src/Mailer.php:285-292 | every registered handle is closed and every registered file deleted, nothing else changes, and the registry ends empty |
| Mailgunner.AddSenders | src/Mailer.php:169-171 | one sender call per entry, in order |
| Mailgunner.AddAttachments | src/Mailer.php:178-180 | one attachment call per prepared attachment, in order |
| Mailgunner.AddHeaders | src/Mailer.php:191-193 | one custom-header call per header, in order |
| Mailgunner.AddRecipients | src/Mailer.php:198-210 | one recipient call of the given kind per entry, in order |
| Mailgunner.Mailer.BuildMessage | src/Mailer.php:157-211 | the builder receives exactly the calls of the build trace, after what it already held |
| Mailgunner.Mailer.Deliver | src/Mailer.php:113-127 | exactly one request reaches the client: the batch finalize or the single send that the build trace determines |
| Mailgunner.Mailer.SendMessage | src/Mailer.php:107-145 | staging fails exactly when there are attachments and the file system has no room for all of them; that failure escapes with the file system full, no request, no cleanup, and the files staged so far registered; otherwise exactly one request, `Dispatch` of the message, is made while every staged file, each new and distinct, holds its attachment's contents; the temporary files are then cleaned up exactly once, leaving the file system as before less the earlier registered files; the outcome is a success exactly when the service is reachable |
| Mailgunner.Mailer.SendPlain | src/Mailer.php:85-88 | as `SendMessage` with an empty HTML body: staging fails exactly when the attachments do not fit in the file system, and that failure escapes with nothing sent or cleaned; otherwise the one request is the send of the message while every staged file holds its attachment's contents, under its file name, then the temporary files are cleaned up once; the outcome says whether the send went through |
| Mailgunner.Mailer.SendHtml | src/Mailer.php:93-96 | as `SendMessage` with the given HTML and text bodies: staging fails exactly when the attachments do not fit in the file system, and that failure escapes with nothing sent or cleaned; otherwise the one request is the send of the message while every staged file holds its attachment's contents, under its file name, then the temporary files are cleaned up once; the outcome says whether the send went through |

## Left out

- Client construction and configuration (`__construct`, `setMailgunClient`,
  `getMailgunClient`, the `api_*` settings): the client and the domain are given
  to the mailer's constructor instead.
- The Mailgun SDK's internals are not modelled: the 1000-recipient flush of a
  batch builder, message encoding and HTTP. A builder records its calls, and a
  request succeeds or raises depending on whether the service is reachable.
- Logging and the debug message on failure (`SS_Log::log`, `Debug::message`)
  are side effects only.
- Mailgunner.Mailer.SendMessage: the outcome `Sent` stands for the array
  `(to, subject, content, headers, '')` the code returns on success. Only that
  the result is truthy matters to callers.
- A failing `tempnam` is modelled as an exception escaping `sendMessage`
  (outcome `Raised`), as happens when `fopen` is handed the `false` it returns
  on PHP 8. The PHP 7 behaviour of carrying on with a warning and a `false`
  path is not modelled. `fopen` and `fwrite` on a fresh file do not fail in the
  model.
- Files.FileSystem.TempNam: what makes `tempnam` fail (a full or unwritable
  temporary directory) is abstracted to a fixed capacity on the number of
  files.
- A builder call that raises part-way through `buildMessage` is not modelled.
  Only the final request raises, so cleanup after a partial build is covered
  only through that request.
- `fwrite` is modelled as writing at the start of the file. The file position
  after earlier writes and short writes are not modelled.
- PHP turns numeric-string array keys into integers. Emails are kept as
  strings.
- Files.FileSystem: paths and handles are opaque names. The temporary
  directory and the `SS_MG_TMP` prefix are not modelled.
- The `@todo` limitation on names with commas or mismatched quotes is modelled
  as written: the scanner splits such names as the expression does.
