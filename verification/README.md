# edgehost: state machines and codecs

A Dafny model of the parts of edgehost whose behaviour needs no I/O to state, with proofs of what
they promise. `dafny verify dfyconfig.toml` checks all of it.

Five groups of source files are modelled. Most operations are described twice: by
a function their code is proved to compute, and by laws told without that function, in literals,
between operations, over whole histories or against an example of a standard.

- **Tokens.** SHA-256, HMAC, base64, session cookies and signed proxy headers
  (`src/core/auth_rbac.c`), SHA-1 and the WebSocket handshake answer (`src/host/ws_stream.c`). The
  streaming hashes are classes over their buffers and are proved equal to the padded one-shot
  definition for every way of cutting the message. The hand-written payload scanners are proved to
  undo the payload printer.
- **State and its replicas.** The slot-array store (`src/core/state_store.c`), the fan-out hub
  (`src/host/ws_stream.c`) and the payload reader (`src/host/notify_apply.c`). Because the text of a
  change event is itself a payload, a mirror that replays the event stream holds the same map; this
  is `Replica.Converges`.
- **Outbound requests of plugins.** The pending table (`src/core/pending_table.c`), the plugin host
  (`src/host/plugin_host.c`) and the proxy plugin (`src/plugins/openai_proxy.c`).
- **Event-gated memory.** The event ring with its overflow mark and the buffer table whose requests
  travel through it (`src/core/edgecore.c`).
- **Connections.** The slot table of the event loop (`src/host/iouring_loop.c`), request assembly
  (`src/host/edge_http1_serve.c`) and URL paths (`src/host/static_files.c`).

Where the source changes fields in place, a class has those fields and each method is proved
against a function of the old state; runs of those functions carry the main theorems. A `char *` is
the text it points at, so a search returns the rest of the string. Results of foreign code (kernel
completions, the TLS library, the header parser, clocks, plugins) are inputs, restricted only to
their documented ranges.

## What the proofs turned up

- `HttpFeed`: the scan for the end of the headers starts at the first byte received, knows two
  patterns and needs three bytes behind the first byte of either. If the header parser accepts
  them, three kinds of requests fail: header lines ended by LF before a CRLF empty line, and a
  one-byte body behind a bare-LF empty line, wait for ever (`MixedEndsAreLost`, `LoneByteIsLost`);
  behind two leading empty lines, of which section 2.2 of RFC 9112 has a server skip at least one,
  the request line is handed out for the body (`LeadingLinesAreTaken`, `RequestLineIsTaken`).
  `PromiseIff` shows that these are all.
- `Roles`: the role parser copies up to 128 bytes into a buffer of 128 and then ends it with a NUL;
  a bracketed text of 128 characters puts the NUL one byte behind it, and no other does
  (`SessionTrip.OverrunsIff`). A subject that spells its own role array reaches this
  (`TightSubject`); one without quote and backslash never does.
- `Replica`: a PUT of `null`, of a value with blanks around it and of some text that is no JSON, as
  an open bracket that is never closed, is stored and announced, but a mirror refuses the first,
  trims the second and reads beyond the third; names spelled like payload fields are misread.
  `Message.PutRoundTrip` and `Message.DeleteRoundTrip` give the exact condition for every value a
  store may hold, `FollowedIff` its meaning for the stores.
- `SessionTrip`: a subject spelled `exp` gets a cookie that never verifies; one with a quote or a
  backslash never verifies to itself. These and the length are the only exceptions. An expiry that
  is not positive never expires.
- `OpenAiProxy`: a cancellation, or a completion given up for lack of memory, keeps its share of
  `in_flight` for good; `InFlightRun` counts those. With as many of them as the maximum nothing is
  ever admitted again, and only then does `in_flight` stay at the maximum (`StarvedIff`).
- `OpenAiHttp`: the bodies that report NOT_FOUND, BAD_BODY, NO_API_KEY, UPSTREAM_CONNECT and
  UPSTREAM_TOO_LARGE lack their closing brace; the other five are whole (`BodyWholeIff`).
- `RateLimit`: the fixed window admits up to 2 * rpm - 1 calls in a sliding minute, for every limit
  that many can occur, and the limit holds in every minute only if it is 1.
- `Base64`, `StaticPath`, `Roles`, `Session`: several size checks inside the code can never fail.

## Model

| member | source | states |
|---|---|---|
| Padding.PaddingInjective | src/core/auth_rbac.c:120-157 | section 5.1.1 of FIPS 180-4: two messages below 2^61 bytes with the same padded form are equal |
| Padding.LastBlocks | src/core/auth_rbac.c:120-157 | the one- and the two-block ending of the padded message, for fewer than 56 and for 56 or more left-over bytes |
| Sha256.Context.constructor | src/core/auth_rbac.c:92-104 | a fresh context holds the empty message |
| Sha256.Context.Transform | src/core/auth_rbac.c:27-90 | one compression step of section 6.2.2 of FIPS 180-4 on the data buffer |
| Sha256.Context.Schedule | src/core/auth_rbac.c:27-90 | the 64 words of the message schedule |
| Sha256.Context.Rounds | src/core/auth_rbac.c:27-90 | the working variables after 64 rounds |
| Sha256.Context.Absorb | src/core/auth_rbac.c:106-118 | one more byte: the state is the chain over the whole blocks, the buffer the rest |
| Sha256.Context.Update | src/core/auth_rbac.c:106-118 | a chunk is appended to the message absorbed so far, so every cutting into chunks is the same |
| Sha256.Context.Pad | src/core/auth_rbac.c:120-145 | what is hashed already and what stands before the length make up the padded message |
| Sha256.Context.Final | src/core/auth_rbac.c:120-157 | the digest is the fold of the compression function over the padded message, whatever the updates were |
| Sha256.PrepareKey | src/core/auth_rbac.c:159-189 | keys above 64 bytes are hashed, shorter ones filled with zeros |
| Sha256.HmacSha256 | src/core/auth_rbac.c:159-189 | HMAC of section 2 of RFC 2104 over that hash |
| KnownAnswers.ConstantsAreCubeRoots | src/core/auth_rbac.c:29-46 | section 4.2.2 of FIPS 180-4: the 64 constants are the first 32 bits of the fractions of the cube roots of the first 64 primes |
| KnownAnswers.InitialIsSquareRoots | src/core/auth_rbac.c:92-104 | section 5.3.3 of FIPS 180-4: the initial hash value is that of the square roots of the first eight primes |
| KnownAnswers.Sha256OfAbc | src/core/auth_rbac.c:27-157 | the digest of "abc" is the one the examples of the standard give |
| KnownAnswers.HmacIs | src/core/auth_rbac.c:159-189 | the MAC spelled out with the padded key and the masks 0x36 and 0x5c of section 2 of RFC 2104 |
| Sha1.SelectorsAgree | src/host/ws_stream.c:43-56 | the "or" selectors of the code equal Ch and Maj of the standard |
| Sha1.Context.Transform | src/host/ws_stream.c:25-69 | one compression step of section 6.1.2 of FIPS 180-4 |
| Sha1.Context.Rounds | src/host/ws_stream.c:43-63 | the working variables after 80 rounds |
| Sha1.Context.Update | src/host/ws_stream.c:81-94 | a chunk is appended to the message absorbed so far |
| Sha1.Context.Final | src/host/ws_stream.c:96-125 | padding fed through the ordinary update gives the hash over the same padded message SHA-256 uses |
| Sha1.PadIsPadded | src/host/ws_stream.c:96-118 | the two pieces the code feeds in are the padding of section 5.1.1 of FIPS 180-4 |
| KnownAnswers.Sha1ConstantsAreSquareRoots | src/host/ws_stream.c:43-56 | section 4.2.1 of FIPS 180-4: the four constants are the square roots of 2, 3, 5 and 10 to 30 bits |
| KnownAnswers.Sha1OfAbc | src/host/ws_stream.c:25-125 | the digest of "abc" is the one the examples of the standard give |
| WsAccept.TrimmedIsKey | src/host/ws_stream.c:180-189 | whatever blanks surround a key, trimming leaves the key |
| WsAccept.Trim | src/host/ws_stream.c:180-189 | the two loops compute that trimming |
| WsAccept.AcceptKey | src/host/ws_stream.c:170-201 | section 4.2.2 of RFC 6455: answers exactly for 29 bytes of room and 1 to 63 trimmed characters, with the 28-character base64 of SHA-1 of key and GUID |
| WsAccept.HandshakeIs | src/host/ws_stream.c:190-195 | what is hashed is the key and the GUID of section 1.3 of RFC 6455 |
| Base64.DigitsRoundTrip | src/core/auth_rbac.c:196-243 | the six-bit digits of any byte string determine it |
| Base64.EncodeStd | src/core/auth_rbac.c:205-228 | padded base64 of section 4 of RFC 4648 for every input |
| Base64.ToUrl | src/core/auth_rbac.c:229-241 | the in-place rewriting turns padded base64 into unpadded base64url of section 5 |
| Base64.Encode | src/core/auth_rbac.c:196-243 | either alphabet; fails exactly when the padded form and its NUL do not fit |
| Base64.ShiftKeeps | src/core/auth_rbac.c:308-314 | the bits lost from the 32-bit accumulator never matter to an output byte |
| Base64.DecodeLoop | src/core/auth_rbac.c:299-317 | the accumulator loop equals reading all digits first and cutting bytes from them |
| Base64.Decode | src/core/auth_rbac.c:265-323 | optional padding, either alphabet, refused from 508 characters on |
| Base64.UrlRoundTrip | src/core/auth_rbac.c:196-323 | decoding base64url text gives the bytes back if and only if they number at most 380 and fit; the text holds no dot, equals sign or NUL |
| Base64.GroupIsNumber | src/core/auth_rbac.c:205-228 | section 4 of RFC 4648: three bytes and their four digits are the same 24-bit number |
| Base64.AlphabetIs | src/core/auth_rbac.c:196-204 | the two alphabets as tables 1 and 2 of RFC 4648 print them |
| Base64.PaddingIs | src/core/auth_rbac.c:205-228 | padded text comes in fours with none, two or one equals sign |
| Base64.DecodesIff | src/core/auth_rbac.c:245-323 | decoding succeeds exactly for fewer than 508 characters of the alphabets in front of the first equals sign, if the bytes fit |
| Numbers.DecimalRoundTrip | src/core/auth_rbac.c:619-621 | a printed 64-bit number is read back by strtoll up to the first non-digit |
| Roles.AddRole | src/core/auth_rbac.c:466-477 | the ADD macro appends the quoted name of a set bit and never fills its buffer |
| Roles.RolesToJsonArray | src/core/auth_rbac.c:458-495 | prints the array of the known roles; fails only when the caller's buffer is too small |
| Roles.ParseRolesArray | src/core/auth_rbac.c:497-538 | the parser over its 128-byte copy: the roles read, or that the terminating NUL falls behind the copy |
| Roles.NulInsideIff | src/core/auth_rbac.c:508-517 | the NUL is written inside the buffer if and only if the bracketed text has not 128 characters |
| Roles.MentionsExactly | src/core/auth_rbac.c:518-535 | a name is found in a printed array exactly when it was printed, although names contain each other |
| Roles.RolesRoundTrip | src/core/auth_rbac.c:458-538 | the parser gives back the known role bits of the printed set |
| RolesCsv.RolesFromCsv | src/core/auth_rbac.c:852-887 | the scanner grants the union over comma-separated fields of the role of each first word, or employee if there is none |
| RolesCsv.UnionIsLeast | src/core/auth_rbac.c:852-887 | the granted set holds the role of every field and is within every set that does |
| RolesCsv.FieldsOfList | src/core/auth_rbac.c:852-887 | splitting at commas undoes writing fields with commas between them |
| RolesCsv.RoleBits | src/core/auth_rbac.c:384-410 | each role name stands for its own bit of the header file |
| RolesCsv.NamesGrant | src/core/auth_rbac.c:852-887 | the comma-separated list of the names the session printer uses for a set grants that very set, the empty set excepted |
| Session.CtEq | src/core/auth_rbac.c:325-333 | the comparison without early exit is equality |
| Session.ParseStringField | src/core/auth_rbac.c:540-565 | the scanner computes its specification, escapes and size bound included |
| Session.ParseInt64Field | src/core/auth_rbac.c:567-594 | the scanner computes its specification |
| Session.Issue | src/core/auth_rbac.c:596-646 | yields the cookie of the payload exactly when there is a key and payload and cookie fit; otherwise nothing |
| Session.Verify | src/core/auth_rbac.c:648-713 | computes its specification; whoever it does not refuse holds a cookie of two halves around the first dot, the second of which decodes to the MAC of what the first decodes to, and is accepted only before the expiry |
| Session.OnlySigned | src/core/auth_rbac.c:648-698 | for every key, clock and cookie: a cookie that is not refused is signed with that key |
| Session.ForgedIsRefused | src/core/auth_rbac.c:669-698 | a signature that decodes to anything but the MAC is refused, whatever the payload |
| Session.RefusedUnless | src/core/auth_rbac.c:648-713 | the exact conditions on the halves, the payload and its claims under which a cookie is not refused |
| SessionTrip.CookieOpens | src/core/auth_rbac.c:669-698 | the separator is unique and none of the buffers verify copies and decodes an issued cookie into is too small |
| SessionTrip.IssueFits | src/core/auth_rbac.c:596-637 | for a subject of at most 63 bytes no internal buffer of issue is too small and 288 bytes hold the cookie |
| SessionTrip.ExpField | src/core/auth_rbac.c:567-594 | the expiry is read back, or none if the subject is spelled like its field name |
| SessionTrip.RolesField | src/core/auth_rbac.c:497-538 | the roles are read back for every subject without quote and backslash, even one spelled "roles" |
| SessionTrip.NeverCatchesUp | src/core/auth_rbac.c:557-562 | a subject with a backslash is never returned unchanged |
| SessionTrip.SessionRoundTrip | src/core/auth_rbac.c:596-713 | an issued cookie verifies to the same subject, the known roles and the expiry before that time, if and only if the subject holds no quote or backslash, has at most 63 bytes and is not "exp"; such a subject is refused from a positive expiry on, and one that is not positive never expires; without quote and backslash the role buffer suffices |
| SessionTrip.LifeTime | src/core/auth_rbac.c:596-713 | a cookie issued for a plain subject is accepted until its time to live, eight hours by default, has passed, and refused from then on |
| Roles.OverrunIff | src/core/auth_rbac.c:497-517 | the role parser overruns its buffer exactly if the bracketed text behind the first quoted roles has 128 characters |
| SessionTrip.OverrunsIff | src/core/auth_rbac.c:497-713 | for every cookie issued: verifying it overruns the role buffer if and only if subject and expiry are read, it has not expired and that text has 128 characters |
| SessionTrip.TightSubject | src/core/auth_rbac.c:497-713 | issue accepts a subject with such a text, and verifying its cookie overruns the role buffer |
| ProxyHeaders.MakeCanonical | src/core/auth_rbac.c:889-905 | the canonical text or, for an empty part or a small buffer, nothing |
| ProxyHeaders.Sign | src/core/auth_rbac.c:907-927 | the base64url HMAC of the canonical text, with its exact failure conditions |
| ProxyHeaders.Verify | src/core/auth_rbac.c:929-1008 | accepts exactly clean, fresh, signed headers and grants what the role list says |
| ProxyHeaders.OnlySigned | src/core/auth_rbac.c:929-990 | for every key, clock and header set: whoever is accepted holds a signature that decodes to the MAC of these headers |
| ProxyHeaders.AcceptedIff | src/core/auth_rbac.c:929-1008 | exactly the signed sets with a clean user of 1 to 63 characters, clean roles and a positive timestamp within the skew, 300 seconds by default, are accepted, until timestamp and skew |
| ProxyHeaders.CanonicalInjective | src/core/auth_rbac.c:889-1003 | the canonical text determines user, roles and timestamp header, whatever blanks or line ends lead the timestamp |
| ProxyHeaders.SignVerify | src/core/auth_rbac.c:907-1008 | a signed header set is accepted exactly when the user fits and is clean like the roles, the timestamp is positive and within the skew |
| ProxyHeaders.MacDeterminesGrant | src/core/auth_rbac.c:929-1008 | requests accepted on the same signed text are the same request with the same principal |
| StateStore.Store.FindNs | src/core/state_store.c:104-116 | finds the row of a namespace exactly if it is registered |
| StateStore.Store.RegisterNs | src/core/state_store.c:123-163 | registers or flags a namespace without touching any contents |
| StateStore.Store.SetEnabled | src/core/state_store.c:228-236 | disabling and enabling keeps the contents |
| StateStore.Store.Put | src/core/state_store.c:281-322 | the slots refine a map update with every error; an existing key is replaced even in a full namespace |
| StateStore.Store.Get | src/core/state_store.c:324-361 | the value clipped to the buffer, if there is one, and its full length |
| StateStore.Store.Delete | src/core/state_store.c:363-390 | removes the one key and nothing else |
| StateStore.Store.List | src/core/state_store.c:392-425 | each matching key at most once, in slot order, all of them if they fit the cap |
| StateStore.UsedIsCardinality | src/core/state_store.c:281-390 | the counter beside the slots is the number of keys |
| StateStore.PrefixListing | src/core/state_store.c:409-424 | a scan stopped early lists matching keys without repetition, a full scan all of them |
| StoreLaws.EveryAnswer | src/core/state_store.c:228-390 | for every history of flags, puts and deletions: every answer, errors included, and what is read are told by the operations and answers before it |
| StoreLaws.DisabledIsClosed | src/core/state_store.c:228-390 | in a disabled namespace nothing is read or written |
| StoreLaws.EnabledAgain | src/core/state_store.c:228-236 | enabling it again gives back what was there, and touches no other namespace |
| StoreLaws.PutThenGet | src/core/state_store.c:281-361 | what was put is what is read, and every other key reads as before |
| StoreLaws.DeleteThenGet | src/core/state_store.c:324-390 | what was deleted is gone, and every other key reads as before |
| StoreLaws.RefusedChangesNothing | src/core/state_store.c:281-390 | a refused operation leaves the store as it was |
| StoreLaws.KeyIsSpelled | src/core/state_store.c:61-79 | a key is valid exactly if it has 1 to 127 characters of the documented charset |
| StoreLaws.JsonIsSpelled | src/core/state_store.c:81-102 | a value passes the check exactly if its first character that is no white space may begin a JSON value |
| JsonText.PrintIsText | src/host/notify_apply.c:71-166 | printing a tree in front of a text is its own text followed by that text |
| NotifyScan.StringField | src/host/notify_apply.c:24-69 | the scanner computes its specification |
| NotifyScan.ExtractRawValue | src/host/notify_apply.c:71-166 | the scanner computes its specification |
| NotifyScan.NestOverValue | src/host/notify_apply.c:107-131 | a whole JSON value leaves the count of either bracket kind where it was: one kind is enough |
| NotifyScan.SkipOverValue | src/host/notify_apply.c:106-152 | skipping stops exactly behind any JSON value |
| NotifyScan.ValueOfTree | src/host/notify_apply.c:94-166 | from behind the colon of the value field, the extracted text is the text of the tree |
| NotifyApply.ReadPayload | src/host/notify_apply.c:168-238 | parsing a payload and choosing its request id |
| NotifyApply.Apply | src/host/notify_apply.c:168-238 | store, hub and counter after applying a payload, for every payload and every error |
| NotifyApply.HttpWrite | src/host/edge_http1_serve.c:696-759 | the PUT and DELETE branches store first and announce only what was stored |
| PayloadLaws.AsksPutIff | src/host/notify_apply.c:168-238 | a payload asks for a put exactly if it is not empty or oversized, begins like JSON, names a namespace and a key of the charset, says put and has a value but null |
| PayloadLaws.AsksDeleteIff | src/host/notify_apply.c:168-215 | a payload asks for a deletion exactly if it says delete under the same conditions |
| PayloadLaws.Obeyed | src/host/notify_apply.c:200-238 | an order does to the store what the store says and is announced exactly if it succeeds |
| PayloadLaws.MintedDiffer | src/host/ws_stream.c:381-397 | two counter values never give the same request id |
| PayloadLaws.DeletionKeepsId | src/host/notify_apply.c:168-222 | whoever applies the announcement of a deletion announces it under the same request id |
| Hub.DefaultsAlwaysFit | src/host/ws_stream.c:241-286 | every announcement of a value of at most 4096 bytes under the name limits fits the message buffer |
| Hub.FanOut.Subscribe | src/host/ws_stream.c:346-353 | starts an empty queue, or keeps the one there is |
| Hub.FanOut.Unsubscribe | src/host/ws_stream.c:355-371 | drops the one subscriber |
| Hub.FanOut.MintRequestId | src/host/ws_stream.c:381-397 | the preferred id, or the next counter value in hexadecimal |
| Hub.FanOut.SubPush | src/host/ws_stream.c:399-425 | the ring keeps the newest 8 messages |
| Hub.FanOut.Broadcast | src/host/ws_stream.c:427-453 | every subscriber's queue gets the announcement if it formats, otherwise none |
| Hub.EveryoneHears | src/host/ws_stream.c:427-453 | a broadcast is the newest message of every subscriber and of nobody else, at most the oldest of eight dropped |
| Hub.FanOut.TakePending | src/host/ws_stream.c:455-481 | the oldest message leaves the queue; exact error conditions |
| Hub.FanOutRun | src/host/ws_stream.c:399-481 | in every run a queue is the last broadcasts, at most 8; deliveries are in order; a message is lost only behind 8 newer ones; with no loss deliveries and queue are all broadcasts |
| StoredValue.StopsAlike | src/host/notify_apply.c:106-152 | where skipping a value stops does not depend on what follows the value |
| StoredValue.StoredIff | src/host/notify_apply.c:71-166 | a text comes back from behind the colon if and only if it starts with neither a blank nor null, holds no NUL and the skip stops at a comma behind it |
| StoredValue.DocumentSurvives | src/host/notify_apply.c:71-166 | a JSON document survives if and only if it is trimmed and not null |
| StoredValue.OpenBracketIsLost | src/core/state_store.c:81-102 | an open bracket that is never closed passes the check of the store and does not survive |
| Message.DeleteRoundTrip | src/host/ws_stream.c:241-286 | the announcement of a deletion is a payload for that deletion if and only if the names are not spelled like the fields read |
| Message.PutRoundTrip | src/host/ws_stream.c:241-286 | for every value a store may hold: the announcement of its put is a payload for that put if and only if the names are not spelled like the fields read and the value survives |
| Message.DocumentRoundTrip | src/host/ws_stream.c:241-286 | for a JSON document and ordinary names that means: trimmed and not null |
| Message.PutPayload | src/host/notify_apply.c:168-238 | for every value text of a payload in the documented order ns, key, op, value, whatever white space stands between its tokens: the payload is that put if and only if names and value survive |
| Message.TreePayload | src/host/notify_apply.c:168-238 | for every JSON value: the extracted text is its text, and the payload is that put if and only if the names survive and it is not null |
| Message.DeletePayload | src/host/notify_apply.c:168-238 | a deletion payload is that deletion, whatever its value, if and only if its names survive |
| Replica.StoresAreOk | src/core/state_store.c:61-79 | every reachable store holds only names and keys the replica theorem needs |
| Replica.ReadBack | src/host/notify_apply.c:168-238 | a followable announcement fits and is read back as the order it announces |
| Replica.Follow | src/host/notify_apply.c:168-238 | replaying the announcement of a write on an equal store gives an equal store |
| Replica.WriteKeepsStep | src/host/ws_stream.c:427-453 | one write through either entry keeps the mirror, brought up to date with the queue, equal to the source |
| Replica.Converges | src/host/notify_apply.c:168-238 | in every allowed run the mirror that replays its queue holds the same map, and is equal when the queue is empty |
| Replica.FollowedIff | src/host/edge_http1_serve.c:696-737 | for every put a source accepts under ordinary names, whose value is not stored yet: an equal mirror that applies the announcement is equal again if and only if the value survives |
| Replica.NullPutDiverges | src/host/edge_http1_serve.c:696-737 | a PUT of null is stored and announced, and every mirror refuses it |
| Replica.OpenBracketDiverges | src/host/edge_http1_serve.c:696-737 | a PUT of an open bracket that is never closed is stored and announced, and no mirror follows it |
| Pending.PendingTable.FindFree | src/core/pending_table.c:63-109 | the scan of insert: clear exactly if neither slot nor id is parked |
| Pending.PendingTable.Insert | src/core/pending_table.c:63-109 | parks exactly if the id is not 0, the table is not full and neither slot nor id is parked |
| Pending.PendingTable.FindOutbound | src/core/pending_table.c:111-124 | the entry of an id exactly if it is parked |
| Pending.PendingTable.FindInbound | src/core/pending_table.c:133-146 | the entry of an inbound slot exactly if one is parked |
| Pending.PendingTable.Release | src/core/pending_table.c:148-157 | removes the one entry |
| Pending.PendingTable.ReleaseOutbound | src/core/pending_table.c:159-167 | removes the entry of an id |
| Pending.PendingTable.ReleaseInbound | src/core/pending_table.c:169-177 | removes the entry of an inbound slot |
| Pending.ContentsCount | src/core/pending_table.c:53-61 | the counter is the number of parked requests |
| PluginHost.Host.EnterOnHttp | src/host/plugin_host.c:375-404 | a dispatch up to the plugin call |
| PluginHost.Host.LeaveOnHttp | src/host/plugin_host.c:405-430 | a dispatch after the plugin call: pending without a request is a failure |
| PluginHost.Host.MayRequest | src/host/plugin_host.c:183-202 | the guards of a request |
| PluginHost.Host.HttpClientRequest | src/host/plugin_host.c:183-222 | mints an id and parks the request exactly when the guards pass |
| PluginHost.Host.CompleteOutbound | src/host/plugin_host.c:432-473 | releases the entry and calls the plugin once, or reports an unknown id |
| PluginHost.Host.CancelInbound | src/host/plugin_host.c:475-481 | releases the entry of the slot without a call |
| PluginHost.Host.FinishPendingSync | src/host/plugin_host.c:497-548 | completes the last request, or gives it up without memory |
| PluginHost.ProtocolRun | src/host/plugin_host.c:183-481 | in every run, whatever the plugins do, parked requests have distinct slots and ids, never more than the capacity, and each id is parked, completed once or released, only one of these |
| PluginHost.AcceptedIsParked | src/host/plugin_host.c:200-221 | the insertion behind the guards of a request cannot fail |
| PluginHost.DispatchParks | src/host/plugin_host.c:375-430 | a dispatch to a slot with nothing parked, in a table with room, whose plugin makes one request, leaves it parked under the next id with its tag and timeout |
| PluginHost.ParkedCarries | src/host/plugin_host.c:183-222 | every parked entry carries slot, plugin, tag and timeout of the request its id was minted for |
| PluginHost.NotNested | src/host/plugin_host.c:183-197 | a dispatch for a slot with a parked request, and a request without a dispatch, a second one or one beyond the capacity, change nothing |
| PluginHost.Endings | src/host/plugin_host.c:432-548 | a completion removes the entry and is handed to its plugin once; a cancellation or giving up removes it and is handed to nobody; no other entry is touched |
| PluginHost.LeftForEver | src/host/plugin_host.c:432-481 | no completion follows a completion or a cancellation |
| RouteMatch.Match | src/host/plugin_host.c:347-373 | the plugin of the longest prefix that covers the path, the last registered of equals; none exactly if none covers it |
| RouteMatch.CoversIff | src/host/plugin_host.c:347-373 | a prefix covers itself, what stands behind it and a slash and, if it ends in one, whatever begins with it |
| RouteMatch.BestIsUnique | src/host/plugin_host.c:347-373 | the best route is unique, so the search determines which plugin answers |
| RouteMatch.TiesAreDuplicates | src/host/plugin_host.c:347-373 | equally long applicable prefixes are the same prefix |
| RateLimit.EveryMinuteBounded | src/plugins/openai_proxy.c:111-126 | on a positive clock that never goes back at most 2 * rpm - 1 calls are admitted in any 60 seconds |
| RateLimit.BoundIsReached | src/plugins/openai_proxy.c:111-126 | for every limit that bound is reached |
| RateLimit.MinuteLimitHolds | src/plugins/openai_proxy.c:111-126 | no minute of any clock holds more calls than the limit if and only if the limit is 1 |
| RateLimit.NoLimit | src/plugins/openai_proxy.c:111-116 | a limit of 0 admits every call |
| RateLimit.FirstIsAdmitted | src/plugins/openai_proxy.c:111-126 | the first call after a minute without calls is admitted |
| OpenAiProxy.Proxy.RateLimitOk | src/plugins/openai_proxy.c:111-126 | one call of the limiter |
| OpenAiHttp.BodyLooksOk | src/plugins/openai_proxy.c:68-109 | the body check computes its specification |
| OpenAiHttp.BodyIff | src/plugins/openai_proxy.c:68-109 | a body without NUL passes exactly if it opens an object and the quoted word model stands in it, from 96 bytes on not only at its very end |
| OpenAiHttp.LastWindowIdle | src/plugins/openai_proxy.c:98-105 | the window the scan omits never matters to a body that does not end in a quote |
| OpenAiHttp.OpensIff | src/plugins/openai_proxy.c:78-88 | the first character that is no blank is a brace |
| OpenAiHttp.GatesAre | src/plugins/openai_proxy.c:44-66 | exactly the employee, employee_admin and service_openai bits may ask, and exactly three routes are served, with or without a query |
| OpenAiHttp.RelayTells | src/plugins/openai_proxy.c:263-290 | a timeout is answered 504, a broken connection and too large an answer 502, and a delivered answer keeps its status |
| OpenAiHttp.Check | src/plugins/openai_proxy.c:174-188 | principal, route and body checks with their status |
| OpenAiHttp.BodyWholeIff | src/plugins/openai_proxy.c:168-286 | of the ten failures the plugin reports exactly five have their whole JSON text as body; the other five lack its closing brace |
| OpenAiHttp.UrlJoins | src/plugins/openai_proxy.c:206-227 | for every request that passes the checks the URL is the upstream without a closing slash and the path, exactly if that is below 640 characters, and the key is sent whole |
| OpenAiProxy.Proxy.OnHttp | src/plugins/openai_proxy.c:155-252 | admission, the request it makes with URL and headers, and the whole response of a refusal |
| OpenAiProxy.Proxy.OnHttpComplete | src/plugins/openai_proxy.c:254-291 | gives a slot back, never below zero, and relays the answer or reports its failure: status, reason, content type and body |
| OpenAiProxy.Proxy.Complete | src/host/plugin_host.c:432-473 | a completion moves host and counters together and succeeds exactly if the answer was delivered and fits |
| OpenAiProxy.Proxy.Dispatch | src/host/plugin_host.c:375-430 | a dispatch with this plugin moves host and counters together |
| OpenAiProxy.VisitTraceIsDispatch | src/plugins/openai_proxy.c:195-252 | the runs below move as the dispatch method says |
| OpenAiProxy.AdmittedIff | src/plugins/openai_proxy.c:155-204 | who is let through: enabled, keyed, allowed, routed, with a model in the body, within limiter and maximum |
| OpenAiProxy.RefusedWith | src/plugins/openai_proxy.c:155-204 | the status of whoever is not, by the first check that fails |
| OpenAiProxy.AdmittedIsParked | src/plugins/openai_proxy.c:240-252 | in every run a visit let through, with room, is parked under the next id with its slot as tag and the configured timeout, and counted once |
| OpenAiProxy.InFlightRun | src/plugins/openai_proxy.c:195-261 | in_flight is the number of this plugin's parked requests plus those released without completion, and never exceeds a non-zero maximum |
| OpenAiProxy.StarvedForEver | src/plugins/openai_proxy.c:195-252 | once as many requests as the maximum were released without completion no visit is ever admitted again |
| OpenAiProxy.Drained | src/plugins/openai_proxy.c:254-261 | every run can go on until none of the parked requests of this plugin is left, without losing one |
| OpenAiProxy.StarvedIff | src/plugins/openai_proxy.c:195-261 | in_flight stays at the maximum in every continuation of a run if and only if as many requests as the maximum were released without completion |
| EdgeCore.MintSequence | src/core/edgecore.c:231-243 | the n-th minted id is 1 + n modulo 2^32 - 1 |
| EdgeCore.EdgeCoreState.EmitEvent | src/core/edgecore.c:118-134 | the circular buffer is a bounded queue; when full the front becomes the overflow mark and the new event is dropped |
| EdgeCore.EdgeCoreState.NextEvent | src/core/edgecore.c:136-151 | takes the front of that queue |
| EdgeCore.EdgeCoreState.RequestAlloc | src/core/edgecore.c:245-284 | a free slot waits under a new id, or is blank again if the event was dropped |
| EdgeCore.EdgeCoreState.RequestRealloc | src/core/edgecore.c:286-321 | a ready slot waits again, or stays ready if the event was dropped |
| EdgeCore.EdgeCoreState.ProvideBuffer | src/core/edgecore.c:323-344 | accepted exactly for a waiting id and a large enough buffer |
| EdgeCore.EdgeCoreState.DetachBuffer | src/core/edgecore.c:346-368 | frees the slot of an id in use and hands its buffer out |
| EdgeCoreRuns.RingRun | src/core/edgecore.c:118-151 | for every queue size and run: delivered events are an in-order subsequence of the accepted, accepted are delivered, queued or overwritten, and at most `dropped` are overwritten |
| EdgeCoreRuns.BufferRun | src/core/edgecore.c:203-368 | with fewer than 2^32 - 1 minted ids slots in use have distinct ids, ready slots a buffer of the requested size, waiting slots an accepted request |
| EdgeCoreRuns.EveryEventIsPlaced | src/core/edgecore.c:118-151 | an accepted event is in exactly one of three places |
| EdgeCoreRuns.RequestIsPlaced | src/core/edgecore.c:245-321 | the latest request of every waiting slot is in exactly one place and not overwritten while nothing was dropped |
| EdgeCoreRuns.DetachedStaysGone | src/core/edgecore.c:323-368 | a detached id is refused for ever |
| EdgeCoreRuns.AskedFor | src/core/edgecore.c:245-284 | with a free slot and room in the ring a request waits under the next id and its event is last in the queue |
| EdgeCoreRuns.NotAsked | src/core/edgecore.c:245-284 | without room every slot stays as it was, the mark is in front and the drop is counted |
| EdgeCoreRuns.AskedAgain | src/core/edgecore.c:286-321 | a ready slot asks again naming the buffer it holds, or stays ready with it |
| EdgeCoreRuns.WaitingIsServed | src/core/edgecore.c:323-344 | a waiting slot takes every buffer that is large enough and is ready with it |
| EdgeCoreRuns.HandedOut | src/core/edgecore.c:346-368 | a slot in use hands out what it holds and is blank again |
| EdgeCoreRuns.AllServed | src/core/edgecore.c:323-344 | every run can be continued to one in which no slot waits |
| IoConn.WriteSound | src/host/iouring_loop.c:326-350 | driving TLS writes keeps what was sent a prefix of the buffer and submits one poll, closes, or fails without submitting |
| IoConn.HttpSound | src/host/iouring_loop.c:553-580 | request bytes lead to one submission, a close or a failure without submission |
| IoConn.TlsSound | src/host/iouring_loop.c:582-629 | the same for a TLS readiness event in every state |
| IoConn.RecvSettles | src/host/iouring_loop.c:924-948 | a receive completion leaves exactly one operation or a free slot |
| IoConn.SendSettles | src/host/iouring_loop.c:949-970 | a send completion of any length does |
| IoConn.PollSettles | src/host/iouring_loop.c:971-985 | a poll completion does |
| IoConn.OpenedSettles | src/host/iouring_loop.c:511-551 | an accepted connection does |
| IoLoop.CompletionFindsOwner | src/host/iouring_loop.c:911-985 | a completion finds the connection that submitted it, and it was the only operation of that slot |
| IoLoop.StepKeeps | src/host/iouring_loop.c:911-988 | every legal event keeps the slot machine invariant |
| IoLoop.LoopIsSafe | src/host/iouring_loop.c:851-988 | the invariant holds in every run from the empty table, so no completion reaches a recycled slot |
| IoLoop.IdleMeansEmpty | src/host/iouring_loop.c:636-648 | with no accept pending and all slots free nothing is in flight |
| IoLoop.AcceptLimit | src/host/iouring_loop.c:258-280 | no run accepts more connections than the limit |
| IoLoop.AcceptsStep | src/host/iouring_loop.c:911-922 | below the limit an accept is pending again after each accept completion that finds a submission entry |
| IoStory.RunTells | src/host/iouring_loop.c:851-988 | the loop refines the lives of the connections, told by the completions alone: phase, response, bytes sent and end of each |
| IoStory.ResponseIff | src/host/iouring_loop.c:553-629 | a connection is told a text exactly if some completion found it asking and the feed replied that text, or the peer had stopped and it is the 400 text |
| IoServer.Loop.CloseConn | src/host/iouring_loop.c:185-220 | frees the slot and lowers the gauge once |
| IoServer.Loop.SubmitPollAt | src/host/iouring_loop.c:282-299 | at most one poll per slot |
| IoServer.Loop.SubmitRecvAt | src/host/iouring_loop.c:301-322 | a receive, or a poll under TLS |
| IoServer.Loop.DriveWriteAt | src/host/iouring_loop.c:326-350 | writes until done, blocked or failed |
| IoServer.Loop.SubmitSendAt | src/host/iouring_loop.c:352-373 | a send of the rest, or TLS writes |
| IoServer.Loop.BeginSendAt | src/host/iouring_loop.c:375-381 | starts the response |
| IoServer.Loop.HttpBytesAt | src/host/iouring_loop.c:553-580 | feeds the request and starts what it answers |
| IoServer.Loop.TlsPollAt | src/host/iouring_loop.c:582-629 | handshake, read or write |
| IoServer.Loop.FindFree | src/host/iouring_loop.c:222-227 | the first free slot |
| IoServer.Loop.AcceptAt | src/host/iouring_loop.c:492-551 | a new connection in the first free slot, or none |
| IoServer.Loop.SubmitAcceptAt | src/host/iouring_loop.c:258-280 | at most one accept in flight, none beyond the limit |
| IoServer.Loop.Handle | src/host/iouring_loop.c:911-988 | one turn of the loop is one step |
| IoServer.Loop.Run | src/host/iouring_loop.c:851-992 | after any run and the closing loop every slot is free, the gauge is back, each accepted connection was closed once and its peer received a prefix of its response, all of it if the send finished; response, bytes and end are those the completions alone tell |
| HttpFeed.Serve.MarkBodyOff | src/host/edge_http1_serve.c:1096-1113 | finds the first blank line, if three bytes follow its first |
| HttpFeed.Serve.WaitFullBody | src/host/edge_http1_serve.c:278-291 | whether the body is complete |
| HttpFeed.Serve.GetBody | src/host/edge_http1_serve.c:293-309 | the body, cut to its declared length |
| HttpFeed.Serve.TakeEvents | src/host/edge_http1_serve.c:1150-1234 | the parser events up to the first error |
| HttpFeed.Serve.Feed | src/host/edge_http1_serve.c:1115-1267 | one call, with every return code |
| HttpFeed.FoundWhen | src/host/edge_http1_serve.c:1096-1113 | on a prefix of the request the first pattern is found exactly when four bytes from its start are there |
| HttpFeed.FeedStep | src/host/edge_http1_serve.c:1115-1267 | a call below the due byte waits, the call that brings it dispatches what the scan takes for the body |
| HttpFeed.AnySplit | src/host/edge_http1_serve.c:1115-1267 | for every splitting of a PUT or POST that fits the accumulator, with or without empty lines in front: 0 until the due byte, then the body the scan sees |
| HttpFeed.DueCases | src/host/edge_http1_serve.c:1096-1113 | the due byte is the last of the body if the end of the headers is noticed in time, before it if a pattern stands in front of the request line, behind it or nowhere otherwise |
| HttpFeed.PromiseIff | src/host/edge_http1_serve.c:1115-1267 | however a request is cut, every call before its last byte returns 0 and the last dispatches exactly the Content-Length bytes behind the headers: if and only if no pattern stands in front of the request line and the empty line behind the headers is CRLF behind CRLF, or LF behind LF with a body of more than one byte |
| HttpFeed.DispatchedIff | src/host/edge_http1_serve.c:1115-1267 | what the calls of one splitting return in each of these cases: the body with the last byte, 0 for ever, or another text for the body too early |
| HttpFeed.OnePiece | src/host/edge_http1_serve.c:1115-1267 | the same for a request in one piece, with the events of its parser |
| HttpFeed.LeadingLinesAreTaken | src/host/edge_http1_serve.c:1096-1113 | a request behind two CRLF empty lines hands out what stands behind these as its body |
| HttpFeed.RequestLineIsTaken | src/host/edge_http1_serve.c:1096-1113 | such a request whose request line is handed out for its body |
| HttpFeed.LoneByteIsLost | src/host/edge_http1_serve.c:1096-1113 | a request with a one-byte body behind a bare-LF empty line that is never dispatched |
| HttpFeed.MixedEndsAreLost | src/host/edge_http1_serve.c:1096-1113 | a request with header lines ended by LF and a CRLF empty line that is never dispatched |
| HttpFeed.PlainSplit | src/host/edge_http1_serve.c:1115-1267 | for every cutting of a request of another method or without a positive Content-Length: 0 until the headers are complete, then a dispatch in every call until one returned 1, and refusals from then on |
| HttpFeed.NothingBehind | src/host/edge_http1_serve.c:293-309 | the body handed out is empty without a Content-Length, and if nothing follows the headers |
| HttpFeed.PlainInOne | src/host/edge_http1_serve.c:1115-1267 | such a request in one piece is answered at once |
| HttpFeed.FaultsAreAnswered | src/host/edge_http1_serve.c:1136-1143 | a parser error anywhere among the events is answered 400, bytes beyond the accumulator 413 |
| HttpFeed.AnswerIsLast | src/host/edge_http1_serve.c:1115-1267 | after a response every further call is refused, whatever the calls are |
| StaticPath.Resolve | src/host/static_files.c:12-123 | computes the specification: root, one slash, the components; fails exactly on an unusable root or buffer, an over-long path, a bad component or a result that might not fit |
| StaticPath.Walk | src/host/static_files.c:58-108 | the walk joins the components; its own bounds checks never fail |
| StaticPath.PartsOfSpelled | src/host/static_files.c:46-102 | the components come back however many slashes stand around them |
| StaticPath.StaysBelow | src/host/static_files.c:12-123 | a result is the root, one slash and components none of which is empty, a dot name or holds a slash, control character or backslash |
| StaticPath.ResultIsBelow | src/host/static_files.c:12-123 | a result is the root, one slash and a text none of whose slash-separated pieces is empty, a dot, two dots, or holds a character below 0x20, 0x7f, a backslash or a slash |
| StaticPath.DirtyIsRefused | src/host/static_files.c:58-90 | a path with a piece that is a dot name or holds such a character is refused, wherever it stands in front of the query |
| StaticPath.RefusedIsDirty | src/host/static_files.c:12-123 | with room for the result only such a path is refused |
| StaticPath.NeverLeavesRoot | src/host/static_files.c:12-123 | opening the relative part of a result name by name, two dots going up, never leaves the root, not even on the way |
| StaticPath.ServesWhatIsAsked | src/host/static_files.c:12-123 | clean names, with whatever slashes and query around them, give the file of that name below the root |
| StaticPath.ServesIndex | src/host/static_files.c:30-56 | no name at all gives index.html |
| StaticPath.ResolvesToItself | src/host/static_files.c:12-123 | resolving the relative part of a result gives the result again; with a slash in front, exactly if that still has fewer than 512 characters |

## Left out

- Sockets, liburing, OpenSSL, file reading and DNS: foreign calls; their results are inputs.
- WebSocket promotion and framing in `src/host/iouring_loop.c`: plain connections may then have a receive and a send in flight; the loop model covers connections that are never promoted.
- The header parser and the WebSocket library: sibling libraries that are not part of this model; header events are inputs.
- Allocation failure: the allocator is assumed to succeed, except where a completion is given up for lack of memory.
- Null pointer arguments: every pointer is valid.
- Liveness, timing and fairness of the loop, and `should_stop`: a run is any finite list of events.
- Response texts, metrics other than `active_conns`, health documents and error bodies other than the proxy plugin's: a response is any non-empty text.
- Authorisation tables (`edge_auth_rbac_check`, `edge_auth_classify`), password and login-body checks, cookie header extraction: readings of one function each.
- `src/host/config_yaml.c`, `src/core/edge_config.c`, `src/host/config_hup.c`, `src/host/auth_host.c`, `src/host/edge_metrics.c`, `src/host/host_alloc.c`, `src/host/pq_sidecar.c`, the Slack and Teams stubs, `spa/`: tables, counters, stubs and user interface.
- Cryptographic strength: only equality with the standards is stated; HMAC is an ordinary function.
- PluginHost.Host.EnterOnHttp: the callback into the plugin is cut out, so a dispatch is its two halves with any requests between them; reason strings and the copied request body are not modelled.
- OpenAiProxy.Proxy.OnHttp: the host's copy of the upstream request and its sending are not modelled; hit and in-flight counters do not wrap.
- EdgeCore.EdgeCoreState.EmitEvent: the 64-bit count of dropped events does not wrap.
- EdgeCoreRuns.BufferRun: stated for fewer than 2^32 - 1 minted ids, after which ids repeat.
- HttpFeed.Serve.Feed: the body is handed out for every dispatched method, and what dispatch does with it is only its return code; authentication of the headers is left to the members above.
- HttpFeed.AnySplit: a second request that arrives in the same call as the end of the first is outside the assumption on the parser, since its events replace method and length; bytes behind the body without such events are covered.
- Message.PutRoundTrip: a namespace with a quote or a backslash in its name, and a text of more than 8000 characters, are not covered.
- PayloadLaws.DeletionKeepsId: not stated for puts, whose value may itself spell the name of the field.
- IoServer.Loop.Handle: records live in one array and are replaced whole, so pointers into a record are not modelled; the number of a connection and the bytes its peer received are ghost fields.
- ProxyHeaders.Verify: asks for a clock that is not negative, as the subtraction in the code does.
- Session.Issue: asks that clock plus lifetime be a 64-bit number, as the addition in the code does.
