# A verified model of the TLS/HTTP proxy

This project models the parts of the proxy whose correctness is hardest to see from the
code, and proves what they promise for every input, every fragmentation of the input and
every interleaving of the concurrent parts. `dafny verify dfyconfig.toml` checks all of it.

The subjects, and the modules that treat them:

- **HTTP message boundary** (`Text`, `Numerals`, `HeadLines`, `HttpHeads`, `FramingRules`,
  `HttpRewrite`, `HttpFields`, `HttpFailures`, `HttpProxyHead`, `Addresses`, `ConnStreams`,
  `Chunked`, `Relay`, `HttpExchange`). Finding the head in a fragmented stream, deciding the body framing
  (section 6.3 of RFC 9112), rewriting the head for the next hop (section 7.6.1 of RFC 9110),
  reading a chunked body (section 7.1 of RFC 9112) and relaying exactly the body. The main
  result is end to end: for every way the client's bytes arrive, the upstream gets the
  rewritten head and the body and no byte more; a clean end tells that the body was whole or
  the client closed early; and the upstream reads from the head the framing the proxy relayed
  by, unless the client had the framing field removed.
- **Certificate store** (`AcmeRecords`, `CertTables`, `CertStore`, `CertInvariants`,
  `Migration`, `Retention`). Six tables changed by ordered write batches: what every run of
  operations keeps, what the migration to one certificate per name carries over, and what
  retention may drop while activations go on.
- **Renewal retry gates** (`Renewals`). Scans, refreshes, renewals and manual clearing as
  one timed state machine.
- **Accounting log** (`Accounting`). The writer thread and the compressor thread on one
  directory: no row is lost but from the old end, and which file holds which rows.
- **Backend selection** (`Balancing`, `Selection`, `RoundRobin`, `Ownership`). Sticky choice
  through the health filter, fairness of the two nested round-robin cursors, and who owns a
  monitored group while passes, traffic and eviction overlap.
- **Loop detection** (`HelloCache`, `ClientRandom`), **routing tables** (`Overrides`,
  `HostRoutes`) and **configuration revisions** (`Revisions`).

Conventions. Bytes of a head or body are characters; bytes of TLS records are numbers.
Integers are unbounded and a 16-, 32- or 64-bit limit is written out where it matters. Time
is a parameter that does not run backwards. How much a read returns, whether a write fails,
the random jitter, the hash and the regular expressions are arbitrary: results hold for all
of them. What the source updates in place is a class whose methods are proved against
functions of the old state; parts that run concurrently are state machines with one action
per atomic step.

Where a property one would expect does not hold for the code, the code is kept, a lemma
gives an input that breaks it, and another says exactly when it does hold:

- A client that names `Content-Length` or `Transfer-Encoding` in its `Connection` field has
  that field removed although the proxy still relays the body by it (`RewriteFraming`,
  `FramingLostByConnectionOption`); naming `Host` removes the only Host (`RewriteHost`,
  `HostLostByConnectionOption`).
- `normalize_domain` trims whitespace before dots, so it is not idempotent on a name such as
  `"a ."`; such names leave index entries behind (`NormalizeIdempotent`,
  `DeleteKeepsInverseIff`, `SaveKeepsInverseIff`, `UnsettledNameBreaks`).
- Clearing the retry gates by hand reads and writes in two steps; a CA deadline stored in
  between is erased (`WriteGatesKeepsIff`, `ClearingCanEraseDeadline`).
- A round-robin cursor that wraps at 64 bits is fair in every window only if the pool's size
  divides 2 to the 64 (`FairIff`, `UnfairAtWrap`).
- An eviction or an on-demand creation that overlaps a configuration pass can remove or take
  over a group the pass has bound (`StepKeepsIff`, `SafeWhileFresh`, `EvictionOverlapsPass`,
  `CreationOverlapsPass`), contrary to the comment on the owner field.
- Saving a configuration reads the revision counter and writes in two steps, and the roll-back
  of the runtime loop does not take the lock the control API saves under. An edit saved
  meanwhile can be lost, and the counter can go back (`SafeIffFresh`, `EditLost`,
  `CounterGoesBack`).

One guarantee rests on an assumption about the outside: retention never breaks an active
pointer as long as generation ids are drawn anew (`ActiveNeverDangles`), which the ACME client
does with 16 random bytes. `SafeIffFresh` in `Retention` says exactly what is needed, and
`ReusedKeyDangles` what happens otherwise.

## Model

| member | source | states |
|---|---|---|
| HeadLines.FindHeadEnd | src/http_header.rs:76-89 | the byte scan agrees with the line-by-line definition of the head end |
| HeadLines.HeadEndIsFirst | src/http_header.rs:76-89 | that end is the first blank-line terminator of the bytes, CRLF or bare LF, and there is none when it reports none |
| HeadLines.HeadEndOfPrefix | src/http_header.rs:49-72 | reading more never moves a head end, and it is seen as soon as its last byte is there |
| HeadLines.RenderRoundTrip | src/http_header.rs:345-452 | lines printed with CRLF and read back are the same lines, and the head ends right before the body |
| HttpHeads.ScanAccepts | src/http_header.rs:98-127 | the header scan succeeds exactly when every line is a field or a continuation, Host is not continued and comes at most once; it then reports Host's value |
| HttpHeads.ParsedHeadersAccepted | src/http_header.rs:91-144 | a parsed head has an acceptable header section whose only Host is the one reported |
| Addresses.RequestPartsIff | src/http_header.rs:146-161 | a request line is taken exactly when it is three words, whitespace between and around them, the last starting with `HTTP/1.` and the second with a slash; method and target are the first two |
| Addresses.HostPortIff | src/http_header.rs:165-190 | a Host value is taken exactly when it is a name, a name with a 16-bit decimal port after its last colon, or an address in brackets with or without one, and it is read as that |
| HttpProxyHead.ParseHead | src/http_header.rs:91-144 | the parsing loop computes the specified result, error cases included |
| HttpProxyHead.FramingOf | src/http_header.rs:234-280 | the framing loop computes the specified framing or the specified refusal |
| FramingRules.FramingScanIs | src/http_header.rs:237-266 | when the framing scan gets through, and which length and coding it then holds |
| FramingRules.FramingIff | src/http_header.rs:234-283 | chunked exactly when the only framing field is an unfolded Transfer-Encoding that says so, a length exactly when it is one valid Content-Length or there is none, and everything else is refused |
| FramingRules.LengthIff | src/http_header.rs:250-283 | with one Content-Length as the only framing field the body has n bytes exactly when that field is a decimal numeral of n, leading zeros and a plus sign allowed, below 2 to the 64 |
| HttpProxyHead.CopyLine | src/http_header.rs:357-410 | one line is copied or dropped with its continuations, and its forwarding values are collected |
| HttpProxyHead.CopyHeaders | src/http_header.rs:345-410 | the loop writes the request line and the kept lines in order, and collects the earlier forwarding chains |
| HttpProxyHead.RewriteForProxy | src/http_header.rs:321-452 | the rewritten head, then the bytes after the head, unchanged |
| HttpProxyHead.FirstLineReplaced | src/http_header.rs:296-309 | replacing the request line moves the head end by the difference in length and leaves all other lines and the body alone |
| HttpProxyHead.RebuiltHead | src/http_header.rs:284-312 | the head rebuilt for a stripped target has method, new target and version, the same headers and the same bytes behind it |
| HttpProxyHead.HttpHead.constructor | src/http_header.rs:128-143 | a parsed head is valid: its cached facts are those of its bytes |
| HttpProxyHead.HttpHead.ConsumeAuthorization | src/http_header.rs:201 | only the flag changes |
| HttpProxyHead.HttpHead.StripPathPrefix | src/http_header.rs:284-312 | only the target changes: headers, framing and body prefix stay, and the cached facts still match the bytes |
| Addresses.PrefixStripped | src/http_header.rs:284-294 | the target without the prefix, slashes at the prefix's end not counting, or the root when nothing is left |
| Addresses.OtherTarget | src/http_header.rs:284-294 | a target that does not start with the prefix is left alone |
| HttpRewrite.RewrittenReads | src/http_header.rs:321-452 | what the next hop reads from the rewritten head: the request line, the kept lines and the injected ones |
| HttpRewrite.RewriteFraming | src/http_header.rs:321-452 | the rewritten head ends right before the body, and an upstream derives the proxy's framing from it exactly when no Connection option names the field that carries it |
| HttpRewrite.RewriteHost | src/http_header.rs:329-441 | always one Connection field; one Host, acceptable to the next hop and with the right value, exactly when it was replaced or not named as a Connection option |
| HttpFields.RewriteFields | src/http_header.rs:329-452 | for every field name: the values the next hop reads are, in order, those the client sent followed by what the proxy adds under that name, and none of the client's for exactly the hop-by-hop names, consumed credentials, a replaced Host and what Connection lists; an upgrade passes exactly when Connection lists it |
| HttpFields.NeverForwarded | src/http_header.rs:331-344 | whatever the client sends, the next hop reads no Keep-Alive, TE, Trailer, Proxy-Authorization or Proxy-Connection, and no Authorization that was consumed |
| HttpFailures.FramingLostByConnectionOption | src/http_header.rs:331-344 | a request that is parsed, whose five bytes of body are relayed, and whose framing the upstream does not learn |
| HttpFailures.HostLostByConnectionOption | src/http_header.rs:331-344 | a request that is parsed and forwarded without a Host, so that the same parser would refuse it |
| ConnStreams.ConnStream.Read | src/conn_stream.rs:42-61 | a non-empty piece of what comes next, pushed-back bytes first, nothing only at the end |
| ConnStreams.ConnStream.Unread | src/conn_stream.rs:124-140 | the bytes come before everything else, earlier pushed-back ones included |
| Chunked.RunData | src/http_header.rs:493-499 | a bulk read of payload is as many single-byte steps |
| Numerals.ParseIff | src/http_header.rs:522 | the parser yields n exactly on an optional plus and at least one digit of the radix, in either case, whose value is n and below the bound |
| Numerals.PrintParses | src/http_header.rs:522 | every number below the bound, printed, is read back |
| Chunked.AnnouncesIff | src/http_header.rs:513-524 | a size line announces n exactly when its part before the first semicolon, whitespace around it aside, is a hexadecimal numeral of n below 2 to the 64 |
| Chunked.PrintedSize | src/http_header.rs:513-524 | a printed size is read back whatever the case of its digits, with spaces, an extension or a carriage return behind it |
| Chunked.EncodedRuns | src/http_header.rs:482-569 | every well-formed chunked message within the limits is read to its end |
| Chunked.Decode | src/http_header.rs:482-569 | whatever the automaton reads to its end is the encoding of a well-formed message |
| Chunked.DoneIffWellFormed | src/http_header.rs:464-569 | the automaton ends exactly on the messages of an independent grammar: sizes as AnnouncesIff reads them, payloads of that length, lines within 256 bytes and trailers within 16384 |
| Chunked.EncodedEnds | src/http_header.rs:482-569 | whatever follows a message, the body ends where the message ends |
| Relay.BodyReader.Read | src/http_header.rs:482-569 | returns what it consumes, never past the end of the body, whatever the sizes of reads and buffers; it fails only when nothing was left to deliver |
| Relay.BufferingWriter.WriteAll | src/relay.rs:181-182 | accepts all bytes, or a prefix when it fails |
| Relay.BufferingWriter.Flush | src/relay.rs:163-172 | accepted bytes stay accepted, and none is queued after a flush that succeeds |
| Relay.BufferingWriter.Shutdown | src/dataplane/http/mod.rs:380-398 | flushes, and closes only a writer that is not kept open |
| Relay.CopyOnce | src/relay.rs:158-183 | one piece is read and written, or the reason to stop is named and what was accepted until then is a prefix of the body |
| Relay.Pipe | src/relay.rs:140-191 | never parks with queued bytes; what is accepted is a prefix of the body, all of it on a clean or a malformed end; a clean end leaves the rest unread and has run the chunked automaton to its end, a malformed one has not |
| HttpExchange.ReadHttpHead | src/http_header.rs:49-72 | for every fragmentation the same outcome, decided by the bytes and the limit alone; nothing read is lost |
| HttpExchange.PrepareHead | src/dataplane/http/mod.rs:116-222 | the head as routed, with the client's headers, and the unread rest behind it |
| HttpExchange.SendHead | src/dataplane/http/mod.rs:300-318 | body bytes read too far go back in front of the client, and the rewritten head alone is sent |
| HttpExchange.RelayBody | src/dataplane/http/mod.rs:362-379 | on a clean end without a tunnel the body was whole, or the client closed before the announced length; a malformed end means a chunked body that was not whole |
| HttpExchange.Exchange | src/dataplane/http/mod.rs:300-379 | at most rewritten head and body reach the writer, on a clean end exactly these, with the verdict of RelayBody on the body; the upstream is not half-closed unless protocols switched |
| HttpExchange.ForwardRequest | src/dataplane/http/mod.rs:116-222 | from connection to upstream: an unreadable head or framing sends nothing; a clean run delivers exactly head and body, the body whole unless the client closed early, and leaves the next bytes unread |
| HttpExchange.BodyIsWhole | src/http_header.rs:482-569 | what is relayed is a whole body exactly when the stream starts with one |
| HttpExchange.BodyFound | src/http_header.rs:464-569 | of a complete body and anything after it, the body is relayed |
| HttpExchange.ForwardsExactly | src/dataplane/http/mod.rs:300-379 | of a head, a whole body and anything after it: the rewritten head and that body are sent, and the rest stays behind |
| HttpExchange.RoutedAccepted | src/http_header.rs:284-312 | a head that was read is acceptable after routing too, with the same header section |
| HttpExchange.ForwardedAsOneMessage | src/dataplane/http/mod.rs:300-379 | what is forwarded is one message whatever follows it: the head ends before the body, the body is whole exactly when the client sent a whole one and then nothing more is taken for it, and the upstream agrees on the framing exactly under the condition of RewriteFraming |
| AcmeRecords.ScanIsExact | src/store/acme.rs:664-670 | the prefix scan for one certificate finds its own keys and no other's |
| AcmeRecords.KeyInjective | src/store/acme.rs:664-670 | different records have different keys |
| AcmeRecords.NormalizeIff | src/store/mod.rs:570-581 | a name is normalised by taking away whitespace around it and then dots after it and lowering its letters, exactly when 1 to 253 bytes are left with labels of 1 to 63 bytes and neither slash nor NUL |
| AcmeRecords.NormalizeIdempotent | src/store/mod.rs:570-581 | normalising twice is normalising once exactly when the name does not end in whitespace |
| AcmeRecords.UnsettledName | src/store/mod.rs:570-581 | a name for which it is not |
| CertStore.DropStale | src/store/acme.rs:368-376 | the batch drops the former names of a record, except the one it keeps |
| CertStore.DropOwned | src/store/acme.rs:439-446 | the batch drops the index entries the record owns and no others |
| CertStore.DropGenerations | src/store/acme.rs:447-452 | the batch drops exactly the generations the prefix scan finds |
| CertStore.Store.SaveManagedCertificate | src/store/acme.rs:301-387 | the new tables, or the error and no change |
| CertStore.Store.CreateAutomaticCertificateIfAbsent | src/store/acme.rs:310-325 | an existing owner of the name is left alone; otherwise a record is saved |
| CertStore.Store.DeleteManagedCertificate | src/store/acme.rs:422-462 | the new tables and whether there was such a record; then record, active pointer and renewal state are gone and tokens untouched |
| CertStore.Store.ActivateGeneration | src/store/acme.rs:534-563 | generation, active pointer and renewal state are written together or not at all |
| CertInvariants.DeleteForgets | src/store/acme.rs:422-462 | a deletion reports exactly whether there was a record and fails exactly on a name it cannot normalise; it takes away the record, its pointer, its renewal state and its names, and every other key of every table keeps its value |
| CertInvariants.ActivateStores | src/store/acme.rs:534-563 | refused exactly on a missing identifier or another certificate's renewal state; otherwise generation, pointer and the renewal state given are stored under their keys and nothing else changes |
| CertInvariants.SaveStores | src/store/acme.rs:340-387 | the record is stored under its own name with its first creation time and the time of this save, the index points at it, and no other record, generation, pointer, renewal state or token changes |
| CertInvariants.CreateStores | src/store/acme.rs:310-325 | an automatic certificate is created exactly when the name has no owner with a record, enabled, automatic and with the provider given; otherwise nothing changes |
| CertInvariants.RecreatedAfresh | src/store/acme.rs:422-462 | a certificate deleted and saved again has a new creation time and neither an active generation nor a renewal state |
| CertInvariants.RunKeeps | src/store/acme.rs:301-462 | over every run on names that settle: index and records are inverses, generations lie under their own keys, every active pointer resolves |
| CertInvariants.Serve | src/store/acme.rs:301-462 | the store's methods, called one after another, are such a run |
| CertInvariants.DeleteRemovesOwnGenerations | src/store/acme.rs:447-452 | deleting a certificate removes its own generations and no others |
| CertInvariants.DeleteKeepsInverseIff | src/store/acme.rs:439-446 | exactly which names a deletion leaves consistent |
| CertInvariants.SaveKeepsInverseIff | src/store/acme.rs:368-379 | exactly which re-saves leave the index consistent |
| CertInvariants.UnsettledNameBreaks | src/store/acme.rs:422-462 | every name that does not settle breaks a store that saves and deletes it |
| Migration.MoveAllCarries | src/store/acme.rs:192-244 | the batch carries every planned record over, whatever the order of records |
| Migration.ReplaceIsScope | src/store/acme.rs:245-256 | token scopes do not depend on the order of replacements |
| Migration.Migrate | src/store/acme.rs:177-259 | refuses exactly on colliding names and then changes nothing; with nothing to migrate it changes nothing; otherwise the tables are migrated |
| Migration.MigratedSound | src/store/acme.rs:177-259 | a migrated store satisfies every store invariant and holds no legacy record, so a second run finds nothing to do |
| Migration.MigratedCarriesOver | src/store/acme.rs:205-244 | every name keeps its record, its active pointer, all its generations and its renewal state, each under that name alone |
| Migration.TokensFollow | src/store/acme.rs:245-256 | a token is good for a name after the migration exactly when it was good for the record that listed it, or named it already and that was no legacy record |
| Retention.CleanupGenerations | src/store/mod.rs:504-531 | the pass drops exactly the doomed generations of each certificate and changes nothing else |
| Retention.RetentionAlone | src/store/mod.rs:510-520 | per certificate exactly this many stay: n without an active pointer, max(n, 1) with one that is found, n less one with one that is not, or all if there are fewer; the active one is never dropped, and nothing dropped was issued later than an inactive one that stays |
| Retention.PassAlone | src/store/mod.rs:504-531 | the steps of a pass with nothing in between, certificates in any order, drop exactly what CleanupGenerations drops |
| Retention.StepSafeIff | src/store/mod.rs:504-531 | an action keeps every active pointer resolving, and out of a pass's reach, exactly when it stores nothing under a key the pass has decided to drop |
| Retention.SafeIffFresh | src/store/mod.rs:504-531 | over every interleaving of a pass with activations and deletions, the same for whole runs, in both directions |
| Retention.ActiveNeverDangles | src/store/mod.rs:504-531 | with generation ids drawn anew every time, no interleaving leaves an active pointer dangling |
| Retention.ReusedKeyDangles | src/store/mod.rs:510-531 | a run from the empty store in which a generation activated again under a doomed key is dropped while active |
| Renewals.BaseGrows | src/acme/backend.rs:243-250 | the back-off base never shrinks with more failures |
| Renewals.BaseDoubles | src/acme/backend.rs:243-250 | 300 seconds after the first failure, doubled by each further one up to the eighth, and 43200 from the ninth on |
| Renewals.BackoffBounds | src/acme/backend.rs:243-250 | a back-off with jitter lies in 240 to 51840 seconds |
| Renewals.JitterIff | src/acme/backend.rs:248 | the jitter drawn is at most a fifth of the base either way |
| Renewals.FailureGate | src/acme/backend.rs:207-237 | after a failure the gate is strictly ahead: with a live CA deadline it is that deadline or 48 hours, whichever is earlier, and is remembered as the CA's; otherwise it is the back-off and no CA deadline is kept |
| Renewals.Pick | src/store/acme.rs:473-497 | one round of the loop decides due or not as specified |
| Renewals.DueManagedCertificates | src/store/acme.rs:466-500 | exactly the stored certificates that are due |
| Renewals.DueIff | src/store/acme.rs:473-497 | due exactly when enabled, with no gate ahead, and either the CA suggests a renewal by now or no active generation lasts the given number of days |
| Renewals.RecordFailure | src/acme/backend.rs:207-237 | stores that gate for the certificate, so that it is not due, with one failure more and the time of the attempt; nothing else changes |
| Renewals.SuccessOpens | src/acme/backend.rs:180-199 | a success closes the series: no gate, no deadline, no failures, and the time of the success |
| Renewals.RefreshHarmless | src/acme/backend.rs:76-107 | an ARI refresh moves no gate and counts no failure; it asks again when the CA says, or in a week when the CA says nothing |
| Renewals.ClearRenewalRetryGates | src/store/acme.rs:593-612 | writes back the cleared states, live CA deadlines excepted, and counts them |
| Renewals.TakeSafe | src/acme/scheduler.rs:155-213 | every step keeps candidates open at the scan's start and one scan at a time |
| Renewals.RunNeverStartsEarly | src/acme/scheduler.rs:155-213 | in every run no renewal starts before the gate stored for it |
| Renewals.OutcomeOnce | src/acme/scheduler.rs:155-213 | in every run, between two outcomes for one certificate it was started anew |
| Renewals.RefreshLands | src/acme/backend.rs:76-107 | a refresh that nothing interrupts stores its answer over what it read, as of the start of the scan, and touches no other state |
| Renewals.DeadlineKept | src/acme/backend.rs:76-107 | in every run without the race below a CA deadline gates its certificate until it passes or the certificate is deleted |
| Renewals.WriteGatesKeepsIff | src/store/acme.rs:593-612 | the write of a clearing keeps every live CA deadline exactly when no listed certificate acquired one since the read |
| Renewals.ClearingCanEraseDeadline | src/store/acme.rs:593-612 | from every state with a renewal under way, three steps that erase a deadline |
| Accounting.RotatingWriter.Prune | src/accounting.rs:247-254 | drops exactly the files above the limit |
| Accounting.RotatingWriter.Rotate | src/accounting.rs:175-190 | survivors move up by one, none onto another, and the active file becomes the first |
| Accounting.RotatingWriter.WriteRecord | src/accounting.rs:162-173 | appends the row and rotates exactly when the size limit is reached and no compression runs |
| Accounting.LogConserved | src/accounting.rs:405-417 | in every interleaving of the two threads the files from the highest index to the active one decode to the last rows written, indexes stay within the limit, and rotation never overlaps compression |
| Accounting.ArchiveExact | src/accounting.rs:162-190 | in every interleaving file k holds exactly the rows written between the k-th last rotation and the one before it, the active file those since the last, and as many rotations are kept as the limit allows |
| Accounting.RotatesAtLimit | src/accounting.rs:162-173 | in every interleaving a row is followed by a rotation exactly when header and rows of the active file reach the limit and no compression is under way |
| Balancing.BestAtIsLastMaximum | src/forward/mod.rs:132-144 | the choice is a member none beats, the last of equals |
| Balancing.CandidatesAreBestClass | src/forward/mod.rs:187-216 | the staged filters select exactly the endpoints of the best health class present |
| Balancing.CandidateIff | src/forward/mod.rs:187-216 | a candidate is an endpoint that none goes before: online, then untested, then down, and of two equals that are not online the IPv4 one |
| Balancing.CandidateChoice | src/forward/mod.rs:187-232 | rendezvous over the candidates is rendezvous over the whole group, class first |
| Balancing.StickyUnderLoss | src/forward/mod.rs:132-144 | removing or degrading members never improves the choice and does not move a client whose member is spared, ties included |
| Balancing.StickyUnderGain | src/forward/mod.rs:132-144 | a new member leaves a choice alone or takes it |
| Balancing.StickyUnderRise | src/forward/mod.rs:132-144 | a member of a better class than before leaves a choice alone or takes it |
| Selection.StickyThroughHealth | src/forward/mod.rs:429-508 | whatever endpoints of whatever groups go away or are marked down, a client whose endpoint is spared keeps group and endpoint |
| Selection.StickyUnderNewBackend | src/forward/mod.rs:429-508 | a backend added anywhere leaves a client where it was or takes it over |
| Selection.StickyUnderRemovedBackend | src/forward/mod.rs:429-508 | removing a backend other than the client's own leaves the client where it is |
| Selection.EndpointAdded | src/forward/mod.rs:187-232 | a group with an endpoint more is no worse, and its sticky clients keep their endpoint or get the new one |
| Selection.EndpointUp | src/forward/mod.rs:187-232 | the same for an endpoint that comes up |
| Selection.StickyUnderGroupGain | src/forward/mod.rs:429-508 | when a group gains an endpoint that way, and maybe a level with it, a client of the pool stays where it is or moves to that endpoint |
| Selection.RendezvousIndex | src/forward/mod.rs:132-144 | the last index of greatest weight |
| Selection.MonitorGroup.ChooseEndpoint | src/forward/mod.rs:187-232 | nothing only without endpoints; the next candidate in turn, or the best member of the group at no cost of a turn |
| Selection.Sift | src/forward/mod.rs:443-475 | the usable groups and those confirmed down, each complete and in the order of the pool |
| Selection.Balancer.SelectFrom | src/forward/mod.rs:484-508 | the group's turn or the pinned group, and which cursors move |
| Selection.Balancer.Select | src/forward/mod.rs:443-508 | usable groups, else those confirmed down, else nothing; sticky selection is the pinned choice and moves no cursor |
| RoundRobin.Fair | src/forward/mod.rs:493-500 | in every window of an unbounded cursor two members' turns differ by at most one |
| RoundRobin.FairIff | src/forward/mod.rs:493-500 | the wrapping cursor is fair in every window exactly when the pool's size divides 2 to the 64 |
| RoundRobin.UnfairAtWrap | src/forward/mod.rs:493-500 | for every other size, a window around the wrap with two turns for one member and none for another |
| RoundRobin.EndpointTurns | src/forward/mod.rs:218-221 | an endpoint is dealt turns as by its group's own cursor, one at each of the group's turns |
| RoundRobin.SelectTurn | src/forward/mod.rs:443-508 | a round-robin selection serves the endpoint whose turn it is and moves both cursors as the counted machine does |
| RoundRobin.TwoLevelFair | src/forward/mod.rs:659-719 | over any number of selections no group is ahead of another by more than one, and within a group no endpoint is |
| Ownership.ExcessRuntimeGroupsToEvict | src/forward/mod.rs:801-812 | as many as exceed the limit, none used more recently than one kept |
| Ownership.ExcessGone | src/forward/mod.rs:786-799 | exactly the lesser of 1000 and their number of runtime groups stay, and every configured one |
| Ownership.GroupTable.EnsureGroup | src/forward/mod.rs:722-762 | touches, promotes or creates one group; never demotes |
| Ownership.GroupTable.ReleaseUnreferencedGroups | src/forward/health.rs:212-229 | what is not bound goes back to runtime; nothing else changes |
| Ownership.GroupTable.Configure | src/forward/health.rs:276-327 | after a pass exactly the named groups are bound, they all exist and are the only configured ones, and no group is lost |
| Ownership.GroupTable.EvictExpiredRuntimeGroups | src/forward/mod.rs:771-784 | removes exactly the runtime groups idle for longer than ten minutes |
| Ownership.GroupTable.EvictExcessRuntimeGroups | src/forward/mod.rs:786-799 | leaves the 1000 most recently used runtime groups, or all if there are fewer |
| Ownership.StepKeepsIff | src/forward/mod.rs:722-812 | a step keeps every bound group present and configured exactly when it does not act on a stale look at the table |
| Ownership.BoundNeverEvicted | src/forward/mod.rs:722-812 | while passes, evictions and creations do not overlap, no bound group is evicted or demoted until a pass drops it, over every run |
| Ownership.SafeWhileFresh | src/forward/mod.rs:722-812 | a run stays safe exactly as long as no step acts on a stale look |
| Ownership.EvictionOverlapsPass | src/forward/mod.rs:771-784 | gives a run in which an eviction removes a group that a completed pass has bound |
| Ownership.CreationOverlapsPass | src/forward/mod.rs:739-761 | gives a run in which traffic takes a bound group back into runtime ownership |
| HelloCache.Cache.EvictExpired | src/hello_cache.rs:53-64 | drops everything that has expired, nothing that is due, and never a newer recording of the same key |
| HelloCache.Cache.Insert | src/hello_cache.rs:38-44 | records the key and leaves no other expired entry in map or queue |
| HelloCache.Cache.IsLooped | src/hello_cache.rs:46-51 | yes exactly when the last recording of the key has not been consumed and is still due; asking consumes it |
| HelloCache.RecordedIsReported | src/hello_cache.rs:38-51 | a recording stays reportable through anything that happens to other keys, and a consumed one does not come back |
| ClientRandom.ExtractClientRandom | src/tls_header.rs:89-108 | bytes 6 to 38 of the handshake payloads at hand, if they are a ClientHello; ends on empty records too |
| ClientRandom.VerdictIsFinal | src/tls_header.rs:89-108 | an answer reached on part of a stream is the answer on all of it |
| ClientRandom.VisibleOfRecords | src/tls_header.rs:89-108 | encoded records show exactly the payloads they carry, whatever follows |
| ClientRandom.CutIndependent | src/tls_header.rs:85-108 | two ways of cutting one handshake into records give the same answer |
| ClientRandom.ClientHelloTracker.Observe | src/upstream_tls.rs:38 | however the writes are cut, one value is recorded, that of the first 64 KiB, and only once |
| Overrides.BestSuffixIs | src/resolver.rs:108-113 | the chosen suffix rule applies, no rule that applies ranks before it, and earlier ones rank strictly after |
| Overrides.SuffixAnswers | src/resolver.rs:108-182 | the suffix rule that answers is one for the name or a parent of it at a label boundary, with this port before any port and then the longest; none only if no rule is for the name |
| Overrides.SuffixMatchesIff | src/resolver.rs:145-151 | a suffix matches the name itself and whatever ends in a dot and the name |
| Overrides.SplitHostPortIff | src/resolver.rs:48-55 | a rule's port is the 16-bit decimal numeral after the last colon; without one the whole, in lower case, is the name |
| Overrides.ExactAnswers | src/resolver.rs:75-97 | the last exact rule in the list for that name and port, or that name and any port; none only if there is none |
| Overrides.PatternAnswers | src/resolver.rs:181-196 | the first pattern in the list that compiles, matches the name and is for this port or any; none only if there is none |
| Overrides.SameLengthSameSuffix | src/resolver.rs:146-151 | the longest matching suffix is well defined |
| Overrides.ScanIsBest | src/resolver.rs:108-182 | scanning the sorted table from the front finds the best rule of the unsorted list |
| Overrides.Tables.Init | src/resolver.rs:75-143 | the tables stand for the rules: last exact rule, sorted suffixes, patterns that compile |
| Overrides.Tables.Resolve | src/resolver.rs:156-196 | the answer of the five levels of precedence |
| HostRoutes.LongestSuffixIs | src/runtime_config.rs:430-437 | the length scored is that of a matching entry, and no matching entry is longer |
| HostRoutes.UnderSuffixIff | src/runtime_config.rs:430-436 | a host is under a suffix exactly when it is the suffix, or one label, a dot and the suffix, case aside |
| HostRoutes.SuffixNameIs | src/runtime_config.rs:429 | an entry stands for what is left without whitespace around it and then dots on both sides |
| HostRoutes.OneLabelDeep | src/runtime_config.rs:430-436 | a suffix entry reaches the name itself and at most one label below it |
| HostRoutes.BestHostRoute | src/runtime_config.rs:443-454 | the first route of the highest score, and none only if none matches |
| HostRoutes.KindDecides | src/runtime_config.rs:413-454 | the route found names the host or has a suffix or a pattern for it; an exact name beats every suffix and a suffix every pattern wherever they stand, the longest suffix wins, and of equals the earliest |
| Revisions.ConfigStore.SaveConfig | src/store/mod.rs:428-477 | the next revision becomes current and newest in the history, or nothing changes: an invalid configuration or no number left |
| Revisions.ConfigStore.Bootstrap | src/store/mod.rs:353-426 | revision 1, once |
| Revisions.ConfigStore.CleanupHistory | src/store/mod.rs:528-530 | keeps the fifty newest revisions, hence the current one |
| Revisions.CommitSoundIff | src/store/mod.rs:432-474 | a save that acts on a counter read earlier leaves the store sound exactly when at most one revision was saved in between |
| Revisions.CommitOverwrites | src/store/mod.rs:432-474 | with exactly one in between, that revision is gone from the history and its number stands for another configuration |
| Revisions.StaleCommit | src/store/mod.rs:432-474 | a write by a counter that has moved on uses a number twice or goes back |
| Revisions.Runtime.StoreLastGood | src/runtime_live.rs:54-62 | a slot that held the newest of some proven revisions holds the newest of these and the one given, and never an older one |
| Revisions.Runtime.Finish | src/runtime.rs:96-125 | what the loop does after each revision continues a run of the machine |
| Revisions.Runtime.Run | src/runtime.rs:96-125 | every run of the loop on its own is a run of the machine whose saves do not overlap |
| Revisions.StepSafeIff | src/store/mod.rs:428-477 | a step keeps the store sound, every number new and the slot the newest proven revision exactly when it does not write by a stale counter |
| Revisions.SafeIffFresh | src/runtime.rs:96-125 | the same over every run in which the control API and the roll-back of the loop save in two steps each, in any interleaving |
| Revisions.SerialRunSafe | src/runtime.rs:96-125 | if saves do not overlap, every run keeps all of that, and what was saved stays the first part of what has been saved |
| Revisions.EditLost | src/runtime.rs:112-115 | gives, from every safe state with a last good revision, a run in which an edit reported as saved is overwritten by a roll-back under the same number |
| Revisions.CounterGoesBack | src/runtime.rs:112-115 | gives a run in which the counter falls behind the history |
| Revisions.RollbackTarget | src/runtime.rs:104-117 | a roll-back beside which nobody saves restores the newest proven configuration under a number greater than all before |
| Revisions.SecondFailureEnds | src/runtime.rs:104-107 | a second failure with nothing proven in between ends the loop |

## Left out

- Sockets, timeouts, TLS handshakes, certificate parsing, ACME and DNS network calls: foreign libraries; their outcomes are inputs.
- Text beyond ASCII: a head that is not UTF-8 is refused before this model starts, and lower-casing is that of ASCII.
- The response side of an exchange (src/dataplane/http/mod.rs:320-361, 401-427): the upstream's answer to an upgrade request is an input of `Exchange`.
- Basic authentication and the loop-token check that precede an exchange (src/dataplane/http/mod.rs:85-104, 228-246): credentials consumed or not is an input.
- The table of DNS diagnostics that migration and deletion also rewrite (src/store/acme.rs:207-212, 453-458): no statement depends on it.
- `import_json`, which may write any table contents, and sessions and audit records, which retention prunes by age.
- Providers, accounts and the choice of a default provider (src/store/acme.rs:32-175): easy members.
- The text parsing of a Retry-After answer (src/acme/backend.rs:255-283): the deadline, if any, is an input.
- The contents of compressed files and a change of the compression method between runs: a compressed file decodes to what it was made from.
- Starting on a directory that already holds log files (src/accounting.rs:142-154, 206-235): the log statements start from an empty one.
- How endpoints are resolved and probed (src/forward/mod.rs:234-289, 866-898): pools and health states are arbitrary.
- The interleaving inside one successful look-up of a group (src/forward/mod.rs:739-749): finding a group and touching or promoting it is one step.
- TwoLevelFair: assumes a fixed pool and health, no other route on the same groups, and no noticed wrap of the cursors in the window; FairIff says what a wrap does.
- RunKeeps: requires names that normalising leaves alone after one application, NUL-free identifiers; the exact effect of other names is in the lemmas next to it.
- MigratedSound: requires a store whose index, generations and active pointers are consistent before the migration; for any other store Migrate states only that an error changes nothing and that nothing to migrate means no change.
- Chunked.DoneIffWellFormed: a chunk size line that is not UTF-8 is refused by the source (src/http_header.rs:519) and accepted here, where lines are text; only chunk extensions can differ.
- A database write already handed over when a scan or a renewal is cut off by its deadline: it is taken to be part of the step before.
- Regular expressions: an arbitrary predicate on names.
- The control API, the event hub, the user interface, the command line and the Go script: request plumbing.
- PROXY protocol headers, connection trackers, idle timers and statistics: fixed encodings and counters.
