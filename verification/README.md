# shift, modelled in Dafny

shift is a graphical session manager. It owns the display and multiplexes several client
compositors ("sessions") onto the monitors. An admin client, usually a login manager, decides
which session is shown.

The model covers four parts of the repository.

- **The server layer** of the `shift` daemon (`ShiftServer`). Clients authenticate with
  single-use tokens, and a pending session is promoted to an active one. The layer tracks
  which sessions are loading, awake or current. Admins create and switch sessions. A client
  may ask for a buffer only when it owns that buffer, its session is awake and no other request
  is in flight. Render events come back from the rendering layer.
- **The rendering layer** (`RenderingLayer` with its `OwnershipManager` and `FenceScheduler`).
  It imports client framebuffers under slot keys. Buffers move between client-owned and
  shift-owned, and their releases are deferred until the next page flip. The layer waits on
  acquire fences, runs the switch transitions and keeps its monitor list in sync with the DRM
  device. It chooses what each monitor shows, and it reports buffer acknowledgements and
  consumptions back to the server layer.
- **The tab protocol server's per-monitor state** (`TabMonitor.Monitor`): each session's double
  buffer, the queue of swaps waiting for a page flip, and the cursor. It also covers the frame
  reassembly of a tab connection (`TabConnection`): bytes are buffered and passed file
  descriptors are kept pending.
- **The application framework used by clients** (`TabAppFramework`). It covers the
  configuration, and the monitor table and its horizontal layout. It keeps the set of monitors
  with a frame scheduled, and for each buffer a release fence and a "present owed" flag. It
  also tracks touch contacts and which one acts as the pointer. The monitor layout engine
  (`Layout`) provides horizontal packing, the touch and overlap tests and both contiguity
  checks. Session ids and monitor ids (`se_…`, `mon_…` in lower-case hex), their parser, and
  the URL-safe base64 token text are modelled as pure functions with round-trip lemmas.

Outside the model:
- The clock is a `now` parameter.
- Randomness (token bytes, a new session's id) is a parameter.
- Where the source reacts to something it cannot see, the model takes a parameter instead:
  what the DRM device, the GPU import, `recvmsg`, `poll` and the frame parser report.
- Where the source iterates a `HashMap` or `HashSet`, the model chooses the order freely
  (`:|`), and the contracts hold for every order.

The model follows the code in these behaviours:
- An unknown token is answered with `AuthError::NotFound` and the connection stays open.
- A new `SetActiveSession` that arrives during a transition replaces the transition. Nothing
  refuses an overlapping switch.
- The tab server queues every swap that arrives while a flip is pending. The queue is
  unbounded; nothing is overwritten.
- A `SwitchSession` naming a session that is not active is answered `unknown_session`. A
  loading normal session is answered `session_loading`.

## Model

| member | source | states |
|---|---|---|
| Roles.Discriminant | shift/src/sessions/role.rs:3-8 | the two roles are numbered 0 and 1, Admin being 1 |
| Roles.FromProtocol | shift/src/sessions/role.rs:10-17 | the protocol's Admin role, and only it, maps to Admin |
| Roles.ToProtocol | shift/src/sessions/role.rs:19-26 | Admin, and only it, maps to the protocol's Admin role |
| Roles.ConversionsRoundTrip | shift/src/sessions/role.rs:10-26 | the two conversions are inverse to each other |
| Roles.OrderIsTotalWithAdminOnTop | shift/src/sessions/role.rs:3-8 | the derived order is strict and total, with Admin above Normal |
| Ids.HexDigit | shift/src/ids.rs:24-28 | a digit below 16 is written as one lower-case hex character, '0' only for zero |
| Ids.Hex | shift/src/ids.rs:24-28 | `{:x}` writes at least one lower-case hex digit, with no leading zero except for 0 itself |
| Ids.Display | shift/src/ids.rs:24-28 | the text is the prefix followed by at least one more character |
| Ids.DigitValue | shift/src/ids.rs:52-55 | exactly 0-9, a-f and A-F have a digit value, and it is below 16 |
| Ids.Accumulate | shift/src/ids.rs:52-55 | accumulating digits never decreases the value, and a failure is never `Empty` |
| Ids.ParseU64Hex | shift/src/ids.rs:52-55 | `u64::from_str_radix(_, 16)`: `Empty` exactly for the empty text and `InvalidDigit` for a lone sign; after an optional `+`, an overflow of the leading hex run is `PosOverflow`, a non-digit after it is `InvalidDigit`, and an all-digit text that fits gives its value |
| Ids.HexRun | shift/src/ids.rs:52-55 | the leading run of hex digits that `from_str_radix` reads before stopping: all digits, and followed by a non-digit or the end |
| Ids.Eval | shift/src/ids.rs:52-55 | the unbounded value of a digit run never falls below the value it continues |
| Ids.AccumulateMeaning | shift/src/ids.rs:52-55 | the digit loop overflows exactly when the leading run's value exceeds the u64 limit, else fails on a following non-digit, else gives that value |
| Ids.FirstUnderscore | shift/src/ids.rs:45-50 | the position of the first `_`, or None exactly when there is none |
| Ids.FoundPrefix | shift/src/ids.rs:45-50 | the prefix reported in an error runs up to and including the first `_`, and is absent exactly when there is no `_` |
| Ids.ParseId | shift/src/ids.rs:41-57 | text without the expected prefix is `InvalidPrefix` with the prefix found; with the prefix, the id parses exactly when the rest parses as hex, to that value, and otherwise reports that hex error as `InvalidHex` |
| Ids.DigitValueOfHexDigit | shift/src/ids.rs:24-57 | reading back a written digit gives the digit |
| Ids.AccumulateAppend | shift/src/ids.rs:52-55 | parsing a concatenation parses the first part and then continues from its value |
| Ids.AccumulateHex | shift/src/ids.rs:24-57 | parsing the hex text of n gives n |
| Ids.ParseDisplayRoundTrip | shift/src/ids.rs:24-57 | `from_str(to_string(id)) == id` for any prefix |
| Ids.SessionIdRoundTrip | shift/src/ids.rs:24-57 | a session id survives printing and parsing |
| Ids.MonitorIdRoundTrip | shift/src/ids.rs:24-57 | a monitor id survives printing and parsing |
| Ids.DisplayInjective | shift/src/ids.rs:24-28 | distinct ids print differently |
| Ids.ParseAcceptsNonCanonicalText | shift/src/ids.rs:41-57 | the parser also accepts a `+` sign and upper-case digits: `se_+0A` is session 10, which prints as `se_a` |
| Base64Url.Value | shift/src/auth/token.rs:35-38 | exactly the 64 URL-safe symbols have a value |
| Base64Url.SymbolValue | shift/src/auth/token.rs:30-38 | each sextet's symbol is URL-safe and reads back as that sextet |
| Base64Url.ValueSymbol | shift/src/auth/token.rs:30-38 | each URL-safe symbol is the symbol of its value |
| Base64Url.Symbols | shift/src/auth/token.rs:30-32 | symbol by symbol, the sextets are written out |
| Base64Url.Values | shift/src/auth/token.rs:35-38 | symbol by symbol, the text is read back |
| Base64Url.ValuesOfSymbols | shift/src/auth/token.rs:30-38 | writing sextets and reading them back is the identity |
| Base64Url.SymbolsOfValues | shift/src/auth/token.rs:30-38 | reading URL-safe text and writing it back is the identity |
| Base64Url.BytesThroughSextets | shift/src/auth/token.rs:30-38 | three bytes split into four sextets and reassemble unchanged |
| Base64Url.TailBitsClear | shift/src/auth/token.rs:30-32 | the unused low bits of the last sextet of a short group are zero |
| Base64Url.SextetsThroughBytes | shift/src/auth/token.rs:30-38 | four sextets packed into three bytes split back unchanged |
| Base64Url.Encode | shift/src/auth/token.rs:30-32 | unpadded encoding produces URL-safe symbols only |
| Base64Url.Decode | shift/src/auth/token.rs:35-38 | decoding succeeds only on URL-safe text |
| Base64Url.DecodeTwoValues | shift/src/auth/token.rs:35-38 | a two-symbol tail decodes to one byte |
| Base64Url.DecodeThreeValues | shift/src/auth/token.rs:35-38 | a three-symbol tail decodes to two bytes |
| Base64Url.DecodeEncodeOne | shift/src/auth/token.rs:30-38 | one trailing byte survives encoding and decoding |
| Base64Url.DecodeEncodeTwo | shift/src/auth/token.rs:30-38 | two trailing bytes survive encoding and decoding |
| Base64Url.DecodeEncodeValues | shift/src/auth/token.rs:30-38 | any byte string survives encoding to sextets and decoding |
| Base64Url.DecodeEncodeGroup | shift/src/auth/token.rs:30-38 | a byte string of at least three bytes survives the round trip through its first whole group |
| Base64Url.DecodeEncode | shift/src/auth/token.rs:30-38 | `decode(encode(b)) == b` for every byte string |
| Base64Url.TailSextetsBack | shift/src/auth/token.rs:30-38 | a tail sextet with clear unused bits is recovered after decoding and re-encoding |
| Base64Url.HighSextetBack | shift/src/auth/token.rs:30-38 | the first sextet of a group is recovered after decoding and re-encoding |
| Base64Url.EncodeValuesOfOne | shift/src/auth/token.rs:30-32 | one trailing byte encodes to two sextets |
| Base64Url.EncodeTwoBack | shift/src/auth/token.rs:30-38 | an accepted two-symbol tail re-encodes to itself |
| Base64Url.EncodeThreeBack | shift/src/auth/token.rs:30-38 | an accepted three-symbol tail re-encodes to itself |
| Base64Url.EncodeDecodeValues | shift/src/auth/token.rs:30-38 | sextets the strict decoder accepts re-encode to themselves |
| Base64Url.EncodeDecode | shift/src/auth/token.rs:30-38 | `encode(decode(s)) == s` for every accepted text, so the accepted text is canonical |
| Base64Url.EncodedValuesLength | shift/src/auth/token.rs:30-32 | n bytes give ⌈4n/3⌉ sextets |
| Base64Url.EncodedLength | shift/src/auth/token.rs:30-32 | n bytes give ⌈4n/3⌉ symbols, with no padding |
| Base64Url.DecodeValuesRejectsLength | shift/src/auth/token.rs:35-38 | a sextet count of the form 4k+1 is refused |
| Base64Url.RejectsDanglingSymbol | shift/src/auth/token.rs:35-38 | a text whose length is 4k+1 is refused |
| Base64Url.RejectsForeignSymbols | shift/src/auth/token.rs:35-38 | a text holding a symbol outside the URL-safe alphabet is refused |
| Tokens.Generate | shift/src/auth/token.rs:18-22 | the token has the requested byte count, and a failing random source is a `GetRandom` error |
| Tokens.ToBase64Url | shift/src/auth/token.rs:30-32 | the token text is URL-safe |
| Tokens.FromBase64Url | shift/src/auth/token.rs:35-50 | text that is not base64url is a `Base64` error; decoded bytes of the wrong length are `InvalidLength` with the expected and the decoded length; bytes of the right length are that token |
| Tokens.TokenRoundTrip | shift/src/auth/token.rs:30-50 | a token survives text and back |
| Tokens.ShiftTokenTextLength | shift/src/auth/token.rs:69-80 | a shift token prints as 27 characters |
| Tokens.WrongLengthTextRefused | shift/src/auth/token.rs:35-50 | only a text of length ⌈4n/3⌉ can be accepted for an n-byte token |
| Tokens.ZeroFlag | shift/src/auth/token.rs:53-55 | the branch-free zero test yields 1 exactly for 0 |
| Tokens.CastBack | shift/src/auth/token.rs:53-55 | a byte survives the cast to `bv8` |
| Tokens.CastInjective | shift/src/auth/token.rs:53-55 | two bytes are equal exactly when their casts are |
| Tokens.ByteCtEqIsEquality | shift/src/auth/token.rs:53-55 | the constant-time byte comparison yields 1 exactly for equal bytes |
| Tokens.AndFoldIsEquality | shift/src/auth/token.rs:53-55 | folding the byte comparisons keeps the flag exactly when the slices are equal |
| Tokens.CtEqIsByteEquality | shift/src/auth/token.rs:53-55 | constant-time token equality is token equality |
| Sessions.WithReady | shift/src/sessions/session.rs:16-20 | only the ready flag changes |
| Sessions.NewPending | shift/src/sessions/pending_sessions.rs:28-38 | a new pending session has a fresh token of the standard size and the given id, role, name and creation time |
| Sessions.NewAdmin | shift/src/sessions/pending_sessions.rs:40-42 | the pending session is an admin one |
| Sessions.NewNormal | shift/src/sessions/pending_sessions.rs:43-45 | the pending session is a normal one |
| Sessions.Promote | shift/src/sessions/pending_sessions.rs:47-58 | promotion keeps id and role; only admins start ready; a missing name becomes the default name |
| Sessions.DefaultNameIdentifiesSession | shift/src/sessions/pending_sessions.rs:59-61 | the default name carries the session id, which parses back |
| Sessions.DefaultNamesDistinct | shift/src/sessions/pending_sessions.rs:59-61 | sessions with different ids get different default names |
| Comms.MonitorMap | shift/src/server_layer/server.rs:872-874 | collecting monitors by id keeps every listed id, and each entry is a listed monitor with that id |
| Comms.MonitorMapKeepsLast | shift/src/server_layer/server.rs:872-874 | of several monitors with one id, the collected map keeps the last |
| StringOrder.LeReflexive | app-framework/monitor-layout-engine/src/lib.rs:33-35 | the string order used to sort monitor ids is reflexive |
| StringOrder.LeTotal | app-framework/monitor-layout-engine/src/lib.rs:33-35 | any two strings are comparable |
| StringOrder.LeTransitive | app-framework/monitor-layout-engine/src/lib.rs:33-35 | the order is transitive |
| StringOrder.LeAntisymmetric | app-framework/monitor-layout-engine/src/lib.rs:33-35 | strings that compare equal are equal |
| ServerSupport.AsleepAfterSet | shift/src/server_layer/server.rs:271-304 | after `set_awake_sessions` a session is asleep exactly when it is not the next current one, not loading, and its deadline has passed or is missing |
| ServerSupport.PruneThenSetKeepsUnexpired | shift/src/server_layer/server.rs:253-304 | pruning before setting changes neither the unexpired deadlines nor the awake set |
| ServerSupport.AtMostOneInflightCons | shift/src/server_layer/server.rs:776-790 | the queue holds at most one request per (session, monitor) exactly when the head's pair is not in the tail and the tail satisfies the same |
| ServerSupport.FilterKeepsAtMostOneInflight | shift/src/server_layer/server.rs:1080-1112 | dropping requests keeps at most one per (session, monitor) |
| ServerSupport.FilterDropsKey | shift/src/server_layer/server.rs:816-867 | a filter that drops a pair's requests leaves none for it |
| ServerSupport.AppendKeepsAtMostOneInflight | shift/src/server_layer/server.rs:776-814 | adding a request for a pair with none in flight keeps at most one per pair |
| ServerSupport.RemoveAtKeepsAtMostOneInflight | shift/src/server_layer/server.rs:896-950 | removing one request keeps at most one per pair |
| ServerSupport.FindRequest | shift/src/server_layer/server.rs:896-950 | the position of the first request matching (session, monitor, buffer), or None exactly when none matches |
| ServerSupport.RemovingFoundRequestLeavesNone | shift/src/server_layer/server.rs:896-950 | once the matching request is removed, nothing is in flight for its pair |
| ServerSupport.CreateVerdict | shift/src/server_layer/server.rs:509-534 | only a client bound to an admin session may create sessions; anyone else gets `forbidden` |
| ServerSupport.SwitchVerdict | shift/src/server_layer/server.rs:558-632 | the checks in source order: a malformed id is `invalid_session_id`, a missing or non-admin requester `forbidden`, an inactive target `unknown_session`, a loading normal target `session_loading`; a switch goes ahead exactly for an admin requester and an active target that is an admin or ready |
| ServerSupport.SwitchTransition | shift/src/server_layer/server.rs:633-651 | a transition is carried exactly when there is a different previous session, an animation and a positive duration |
| ServerSupport.ReadyVerdict | shift/src/server_layer/server.rs:653-709 | an unbound client is `forbidden`, a claimed id other than the session's displayed id `invalid_session_id`, an inactive session `forbidden`, an admin session `invalid_transition`; only the requester's own loading normal session becomes ready, and a ready one is left alone |
| ServerSupport.BufferVerdict | shift/src/server_layer/server.rs:721-814 | the checks in source order: no requester is `forbidden`, a sleeping session `session_sleeping`, a shift-owned buffer `ownership_violation`, a request in flight `buffer_request_inflight`, a closed render channel `render_unavailable`; otherwise the request goes ahead |
| ServerSupport.ReadyRefusesNonCanonicalSpelling | shift/src/server_layer/server.rs:668-682 | `se_+0A` parses as session 10 but is refused as its own ready notice, because the id is compared as text |
| Server.ShiftServer.constructor | shift/src/server_layer/server.rs:128-151 | every table starts empty and the invariant holds |
| Server.ShiftServer.NotifyClient | shift/src/server_layer/server.rs:447-461 | a notice reaches exactly a connected, reachable client; nothing else changes |
| Server.ShiftServer.SendRender | shift/src/server_layer/server.rs:791-814 | a command is sent exactly while the renderer is alive; nothing else changes |
| Server.ShiftServer.PruneExpiredAwakeSessions | shift/src/server_layer/server.rs:253-269 | expired deadlines go, and their sessions fall asleep unless current; the invariant is kept |
| Server.ShiftServer.SetAwakeSessions | shift/src/server_layer/server.rs:271-304 | the awake set becomes the next current session, the loading sessions and the unexpired ones; only the deadlines of awake sessions are kept |
| ServerSupport.KeptDeadlines | shift/src/server_layer/server.rs:286-288 | the deadlines kept are exactly those of awake sessions, unchanged |
| Server.ShiftServer.KeepSessionAwakeFor | shift/src/server_layer/server.rs:306-317 | a positive duration wakes the session until `now + duration`; zero changes nothing |
| Server.ShiftServer.IsSessionAwake | shift/src/server_layer/server.rs:319-322 | the answer is membership after a prune, and the prune takes effect |
| Server.ShiftServer.UpdateActiveSession | shift/src/server_layer/server.rs:1114-1147 | the next session becomes current and awake, and the renderer is told with the transition |
| Server.ShiftServer.HandleAccept | shift/src/server_layer/server.rs:1011-1053 | a new client joins unbound; nothing else changes |
| Server.ShiftServer.ForgetSession | shift/src/server_layer/server.rs:1080-1112 | a session leaves the active, loading, awake and deadline tables |
| Server.ShiftServer.ForgetBuffers | shift/src/server_layer/server.rs:1080-1112 | the client's and the session's in-flight requests and the session's buffer owners go; every other owner is kept |
| Server.OwnersWithout | shift/src/server_layer/server.rs:1080-1112 | the buffer owners of every session but the one removed, unchanged |
| Server.ShiftServer.DisconnectClient | shift/src/server_layer/server.rs:1080-1112 | the new state is `Disconnected`: the client leaves; its bound session leaves the active, loading, awake and deadline tables, its requests and buffer owners go while every other session's are kept, the renderer is told, and if that session was current none is and the awake set is recomputed |
| Server.ShiftServer.HandleAuth | shift/src/server_layer/server.rs:436-508 | an unknown token gets `NotFound`; a known one is consumed exactly once; when the client is told of its session, the new state is `Admitted` from the state with the token gone and the bind notice sent; when it cannot be told, the new state is `Disconnected` from that same state |
| Server.ShiftServer.AdmitSession | shift/src/server_layer/server.rs:462-491 | the new state is `Admitted`: the session becomes active and bound, a loading normal session wakes and the awake set is recomputed, the first admin becomes current, and the client hears awake or asleep (unless it became current) and then which session is current |
| Server.ShiftServer.ReportSessionState | shift/src/server_layer/server.rs:475-491 | the notices appended, in order: awake or asleep unless the session just became current, then the current session if there is one; nothing else changes |
| Server.ShiftServer.HandleCreateSession | shift/src/server_layer/server.rs:509-557 | an admin gets a new pending session filed under its token; anyone else gets `forbidden`; an admin that cannot be told of its new session leaves the state `Disconnected` from the one with the session filed and the notice sent |
| Server.ShiftServer.HandleSwitchSession | shift/src/server_layer/server.rs:558-652 | a refused switch only answers the client with the verdict's code; an accepted one makes the target current, keeps the previous session awake through the transition, recomputes the awake set and tells the renderer, and changes nothing else |
| Server.ShiftServer.SwitchTo | shift/src/server_layer/server.rs:633-651 | the session a transition leaves is awake until the transition ends, the target is current and awake, the renderer is told, and nothing else changes |
| Server.ShiftServer.HandleSessionReady | shift/src/server_layer/server.rs:653-720 | an accepted notice marks the session ready, removes it from loading, recomputes the awake set and keeps only the deadlines of awake sessions, and changes nothing else; a refusal only answers the client |
| Server.ShiftServer.HandleBufferRequest | shift/src/server_layer/server.rs:721-815 | with a requester, expired deadlines are pruned, and the request is forwarded and recorded exactly when `BufferVerdict` accepts; otherwise the client gets that verdict's code; nothing else changes |
| Server.ShiftServer.ResetLinkedBuffers | shift/src/server_layer/server.rs:851-866 | the pair's in-flight requests go and both buffers become client-owned |
| Server.ShiftServer.HandleFramebufferLink | shift/src/server_layer/server.rs:816-867 | the link is forwarded for the bound session; once forwarded, a well-formed monitor id drops that pair's requests and gives both buffers to the client, and nothing else changes |
| Server.ShiftServer.HandleClientMessage | shift/src/server_layer/server.rs:431-869 | each message goes to its handler; `Shutdown` disconnects the client |
| Server.ShiftServer.HandleMonitorOffline | shift/src/server_layer/server.rs:880-895 | the monitor, its in-flight requests and its buffer owners go; the rest is kept |
| Server.ShiftServer.HandleBufferRequestAck | shift/src/server_layer/server.rs:896-928 | the matching request leaves the queue, shift owns the buffer and the counter grows; a connected client is told, or disconnected when it cannot be, and an absent one changes nothing more; without a match nothing changes |
| Server.ShiftServer.TakeAckedRequest | shift/src/server_layer/server.rs:901-913 | the acknowledged request leaves the queue, nothing stays in flight for its pair, shift owns the buffer and the counter grows |
| Server.ShiftServer.Tell | shift/src/server_layer/server.rs:915-927 | a connected client is told, or disconnected when it cannot be; an absent client changes nothing |
| Server.ShiftServer.HandleBufferRequestRejected | shift/src/server_layer/server.rs:929-950 | the matching request is dropped and its client told; without a match nothing changes |
| Server.ShiftServer.HandleBufferConsumed | shift/src/server_layer/server.rs:951-980 | the buffer is the client's again; when a connected client is bound to the session, exactly one release notice goes to such a client, and a delivered one counts as a frame done |
| Server.ShiftServer.HandleRenderEvent | shift/src/server_layer/server.rs:870-989 | `Started` replaces the monitor table; `MonitorOnline` files the monitor; fatal errors and page flips change nothing |
| Server.ShiftServer.StatsTick | shift/src/server_layer/server.rs:397-408 | expired deadlines are pruned and the counters reset |
| RenderState.FromIndex | shift/src/rendering_layer/state.rs:52-60 | exactly indices 0 and 1 name a slot |
| RenderState.SlotOfIndex | shift/src/rendering_layer/state.rs:62-69 | the protocol's buffer index maps to the same slot |
| RenderState.IndexOfSlot | shift/src/rendering_layer/state.rs:71-78 | a slot maps to the same protocol buffer index |
| RenderState.SlotIndexRoundTrip | shift/src/rendering_layer/state.rs:62-78 | the two conversions are inverse to each other |
| RenderState.FromIndexNumbersSlots | shift/src/rendering_layer/state.rs:52-60 | each slot has its own number |
| Ownership.OwnershipManager.constructor | shift/src/rendering_layer/ownership.rs:15-22 | no current session, surface state, owner or deferred release |
| Ownership.OwnershipManager.SetCurrentSession | shift/src/rendering_layer/ownership.rs:28-30 | only the current session changes |
| Ownership.OwnershipManager.EnsureCurrentSessionMonitors | shift/src/rendering_layer/ownership.rs:32-38 | each listed monitor gets a default state under the current session; existing states are untouched |
| Ownership.OwnershipManager.CurrentSlotKeyForSession | shift/src/rendering_layer/render_core.rs:67-70 | the slot the session shows on the monitor, present exactly when its surface state has a current buffer |
| Ownership.OwnershipManager.CurrentSlotKey | shift/src/rendering_layer/ownership.rs:40-45 | the current session's slot on the monitor, and none without a current session |
| Ownership.OwnershipManager.SurfaceState | shift/src/rendering_layer/ownership.rs:47-49 | the stored state of (monitor, session), if any |
| Ownership.OwnershipManager.StoreSurfaceState | shift/src/rendering_layer/ownership.rs:59-61 | the state of (monitor, session) is created or replaced; nothing else changes |
| Ownership.OwnershipManager.Owner | shift/src/rendering_layer/ownership.rs:63-65 | the recorded owner of a slot, if any |
| Ownership.OwnershipManager.SetOwner | shift/src/rendering_layer/ownership.rs:67-69 | the slot has the new owner and no other slot changes owner |
| Ownership.OwnershipManager.MarkSlotClientOwned | shift/src/rendering_layer/commands.rs:79-86 | the slot becomes client-owned; nothing else changes |
| Ownership.OwnershipManager.QueueBufferRelease | shift/src/rendering_layer/ownership.rs:71-87 | the release is queued once: appended unless already queued, so the queue stays free of duplicates |
| Ownership.OwnershipManager.TakeDeferredReleases | shift/src/rendering_layer/ownership.rs:89-91 | the whole queue is returned in order, free of duplicates, and left empty |
| Ownership.OwnershipManager.CleanupMonitor | shift/src/rendering_layer/ownership.rs:93-101 | every owner, deferred release and surface state of the monitor goes; every other one is kept |
| Ownership.OwnershipManager.CleanupSession | shift/src/rendering_layer/ownership.rs:103-113 | every owner, deferred release and surface state of the session goes; every other one is kept |
| FenceSchedule.WaitManyFences | shift/src/rendering_layer/fence_scheduler.rs:117-136 | no fences succeed; `All` needs every wait to succeed; `Any` takes the first wait to end |
| FenceSchedule.AllStricterThanAny | shift/src/rendering_layer/fence_scheduler.rs:117-136 | whenever waiting for all succeeds, waiting for any does too |
| FenceSchedule.FenceScheduler.constructor | shift/src/rendering_layer/fence_scheduler.rs:37-46 | handles start at 1 and nothing is scheduled |
| FenceSchedule.FenceScheduler.Schedule | shift/src/rendering_layer/fence_scheduler.rs:48-61 | the next handle, saturating at the u64 limit, gets a fresh cell with the callback and a wait task; before saturation the handle is new |
| FenceSchedule.FenceScheduler.Reschedule | shift/src/rendering_layer/fence_scheduler.rs:63-78 | a known handle gets a new wait on the same cell; an unknown one changes nothing |
| FenceSchedule.FenceScheduler.Cancel | shift/src/rendering_layer/fence_scheduler.rs:80-85 | the task and callback handle go, the answer says whether the handle was known, and the cell stays armed |
| FenceSchedule.FenceScheduler.WaitTaskFinishes | shift/src/rendering_layer/fence_scheduler.rs:102-115 | the task ends, and it posts its cell exactly when the fence wait succeeded |
| FenceSchedule.FenceScheduler.RecvAndRun | shift/src/rendering_layer/fence_scheduler.rs:87-99 | the oldest completion is consumed, its handle forgotten, and its callback run at most once |
| Transition.FromCmd | shift/src/rendering_layer/mod.rs:93-104 | a transition starts exactly when the duration is positive, from the given session to the target, at `now` |
| Transition.Progress | shift/src/rendering_layer/mod.rs:106-112 | progress lies in [0, 1], and is 1 for a zero duration |
| Transition.ProgressCompleteIff | shift/src/rendering_layer/mod.rs:106-112 | progress reaches 1 exactly when the full duration has elapsed |
| Transition.ProgressMonotone | shift/src/rendering_layer/mod.rs:106-112 | progress never goes backwards as time advances |
| Rendering.HandlesOf | shift/src/rendering_layer/mod.rs:284-310 | the fence handles armed for a set of keys, and no others |
| Rendering.CancelStep | shift/src/rendering_layer/mod.rs:284-310 | cancelling the keys one at a time adds up to cancelling them all |
| Rendering.ReleaseFence | shift/src/rendering_layer/commands.rs:87-96 | only a valid descriptor is passed on as a release fence |
| Rendering.ConsumedEvents | shift/src/rendering_layer/commands.rs:83-106 | one `BufferConsumed` per released buffer, in queue order, each with the release fence |
| Rendering.SlotNumber | shift/src/rendering_layer/state.rs:52-60 | the inverse of `from_index` |
| Rendering.ImportedSlots | shift/src/rendering_layer/commands.rs:44-67 | a slot is imported exactly when its position is among the link's dma-bufs and its GPU import succeeded |
| Rendering.LinkedSlots | shift/src/rendering_layer/commands.rs:76-80 | the imported buffers of the session on the monitor, keyed by slot key |
| Rendering.ClientOwnedAll | shift/src/rendering_layer/commands.rs:76-80 | every given key is client-owned |
| Rendering.ReleasedKeys | shift/src/rendering_layer/commands.rs:83-106 | exactly the slots the deferred releases give back |
| Rendering.LinkedMonitor | shift/src/rendering_layer/commands.rs:20-36 | a link names a monitor exactly when its id parses and the DRM device lists it |
| Rendering.CollectImports | shift/src/rendering_layer/commands.rs:44-67 | the import loop collects exactly `ImportedSlots` |
| Rendering.LinkedStep | shift/src/rendering_layer/commands.rs:76-80 | storing one more imported buffer extends both the slot table and the ownership table by its key |
| Rendering.OnlineEvents | shift/src/rendering_layer/mod.rs:257-266 | `MonitorOnline` for exactly the listed monitors the renderer did not know |
| Rendering.OfflineEvents | shift/src/rendering_layer/mod.rs:267-280 | one `MonitorOffline` per removed monitor, in order |
| Rendering.RenderingLayer.constructor | shift/src/rendering_layer/mod.rs:117-152 | nothing is known, imported, armed or reported |
| Rendering.RenderingLayer.AcceptSwap | shift/src/rendering_layer/commands.rs:164-194 | an accepted swap queues the displaced buffers for release, arms the fence wait of its slot or drops it, changes no other slot's wait, and is acknowledged |
| Rendering.RenderingLayer.ArmAcquireWait | shift/src/rendering_layer/commands.rs:177-181 | the slot waits exactly when an acquire fence is given; no other slot's wait and nothing else changes |
| Rendering.RenderingLayer.CancelFenceWait | shift/src/rendering_layer/fence_runtime.rs:13-17 | the key's wait is forgotten and its handle cancelled |
| Rendering.RenderingLayer.CancelFenceWaits | shift/src/rendering_layer/mod.rs:284-310 | the waits of all the keys are forgotten and their handles cancelled |
| Rendering.RenderingLayer.SpawnAcquireFenceWaiter | shift/src/rendering_layer/fence_runtime.rs:19-40 | the key has a live wait on the fence afterwards: the old handle is rescheduled when possible, otherwise a new one whose callback reports the key |
| Rendering.RenderingLayer.HandleFenceEvent | shift/src/rendering_layer/fence_runtime.rs:42-53 | the signaled key loses its wait, and a displaced buffer is queued for release |
| Rendering.RenderingLayer.CleanupMonitorSlots | shift/src/rendering_layer/mod.rs:284-296 | every slot, owner, deferred release, surface state and wait of the monitor goes; the rest is kept |
| Rendering.RenderingLayer.CleanupSessionSlots | shift/src/rendering_layer/mod.rs:298-310 | every slot, owner, deferred release, surface state and wait of the session goes; the rest is kept |
| Rendering.RenderingLayer.ImportFramebuffers | shift/src/rendering_layer/commands.rs:14-81 | for a monitor the link names and that could be made current, every imported buffer is stored and client-owned; otherwise nothing changes |
| Rendering.RenderingLayer.StoreImports | shift/src/rendering_layer/commands.rs:76-80 | the insertion loop adds exactly the linked slots, all client-owned |
| Rendering.RenderingLayer.ProcessDeferredReleases | shift/src/rendering_layer/commands.rs:83-106 | every queued release gives its slot back to the client and is reported as consumed, in order; the queue ends empty |
| Rendering.RenderingLayer.ConsumeAll | shift/src/rendering_layer/commands.rs:97-105 | the drained releases give back exactly their slots and produce their events |
| Rendering.RenderingLayer.HandleSetActiveSession | shift/src/rendering_layer/commands.rs:122-133 | the session becomes current; the active transition is exactly `FromCmd` of the session, the requested transition and the current instant, so one runs exactly when a session and a positive-duration transition are given |
| Rendering.RenderingLayer.HandleSessionRemoved | shift/src/rendering_layer/commands.rs:134-139 | everything held for the session goes, and it stops being current |
| Rendering.RenderingLayer.SwapRejection | shift/src/rendering_layer/commands.rs:150-164 | a swap is refused exactly for an unknown monitor (first) or an unlinked buffer |
| Rendering.RenderingLayer.HandleSwapBuffers | shift/src/rendering_layer/commands.rs:140-196 | a refused swap changes nothing but its rejection; an accepted one queues the displaced buffers, arms or drops the fence wait, keeps the fence wait of every other slot, and is acknowledged exactly once |
| Rendering.RenderingLayer.HandleCommand | shift/src/rendering_layer/commands.rs:109-200 | the renderer keeps running after every command but `Shutdown`; each command's effect is as its handler states |
| Rendering.RenderingLayer.AnnounceMonitors | shift/src/rendering_layer/mod.rs:257-266 | new monitors are announced online and the listed monitors collected |
| Rendering.RenderingLayer.RetireMonitors | shift/src/rendering_layer/mod.rs:267-280 | each vanished monitor is announced offline once and all its slots, owners and waits go |
| Rendering.RenderingLayer.SyncMonitors | shift/src/rendering_layer/mod.rs:254-282 | the known monitors become the listed ones; appeared monitors go online, vanished ones go offline and are cleaned up |
| Rendering.RenderingLayer.Drawable | shift/src/rendering_layer/render_core.rs:66-76 | a slot can be drawn exactly when it is imported and shift-owned |
| Rendering.RenderingLayer.ChooseDrawing | shift/src/rendering_layer/render_core.rs:62-107 | a transition with both sessions drawable is animated between their current slots at the transition's progress, with only the target drawable it is that slot fullscreen; otherwise the current slot fullscreen if drawable, else nothing; only imported shift-owned slots are drawn |
| Rendering.RenderingLayer.DrawReadyMonitors | shift/src/rendering_layer/render_core.rs:30-117 | every drawable monitor is in the frame with only shift-owned content; a fully elapsed transition is cleared |
| Rendering.RenderingLayer.RenderAndCommit | shift/src/rendering_layer/render_core.rs:119-141 | the frame shows only shift-owned slots; the deferred releases are processed, one `PageFlip` is reported, and the answer is whether any connector committed |
| TabMonitor.NewCursor | tab-server/src/monitor.rs:24-50 | a new cursor has the given image and hot spot, at the origin |
| TabMonitor.AfterFlip | tab-server/src/monitor.rs:159-170 | a completed flip releases the oldest in-flight buffer and shows the next queued one, whose flip is timed from the instant it was submitted |
| TabMonitor.CurrentTexture | tab-server/src/monitor.rs:85-90 | the linked buffer the output shows, if any |
| TabMonitor.Monitor.constructor | tab-server/src/monitor.rs:98-103 | no session has an output |
| TabMonitor.Monitor.UpdateInfo | tab-server/src/monitor.rs:109-111 | only the info changes |
| TabMonitor.Monitor.FramebufferLink | tab-server/src/monitor.rs:113-125 | the session's output is replaced by an empty one with nothing in flight |
| TabMonitor.Monitor.SwapBuffers | tab-server/src/monitor.rs:126-147 | false without an output; on an idle output the buffer is shown at once and timed from now; on a busy one it is queued with the instant it was submitted; nothing else changes |
| TabMonitor.Monitor.CurrentBufferForSession | tab-server/src/monitor.rs:148-150 | the texture the session's output shows |
| TabMonitor.Monitor.RemoveSession | tab-server/src/monitor.rs:152-154 | the output goes and the texture it showed is returned |
| TabMonitor.Monitor.TakePendingPageFlip | tab-server/src/monitor.rs:155-175 | with a pending flip, the output becomes exactly `AfterFlip` of the old one and the latency is reported; otherwise None and no change |
| TabMonitor.Monitor.SetCursor | tab-server/src/monitor.rs:176-182 | false without an output; otherwise only the cursor is set |
| TabMonitor.Monitor.MoveCursor | tab-server/src/monitor.rs:183-191 | only an existing cursor moves |
| TabMonitor.Monitor.ClearCursor | tab-server/src/monitor.rs:192-197 | the output no longer has a cursor |
| TabMonitor.Monitor.GetCursor | tab-server/src/monitor.rs:198-204 | the session's cursor, if any |
| TabConnectionModel.AfterParse | tab-server/src/connection.rs:65-82 | the pending descriptors are put back only for an incomplete frame |
| TabConnectionModel.TabConnection.constructor | tab-server/src/connection.rs:20-27 | the buffer and the pending descriptors start empty |
| TabConnectionModel.TabConnection.TryParseBuffer | tab-server/src/connection.rs:61-83 | an empty buffer answers None; otherwise a frame consumes its bytes, and an incomplete frame keeps the bytes and the descriptors |
| TabConnectionModel.TabConnection.RecvFrame | tab-server/src/connection.rs:85-131 | nothing to read answers None; a failed, empty or truncated read is the matching error and its descriptors are dropped; descriptors arriving while others are pending are refused and closed; otherwise the bytes are appended and parsed with the new or pending descriptors |
| TabConnectionModel.TabConnection.AcceptRead | tab-server/src/connection.rs:98-128 | descriptors arriving while others are pending are closed and the read refused; otherwise the bytes are appended and a frame parsed |
| TabConnectionModel.TabConnection.RefuseFds | tab-server/src/connection.rs:115-124 | the new descriptors are closed and an invalid-payload error returned; nothing else changes |
| TabConnectionModel.TabConnection.AppendAndParse | tab-server/src/connection.rs:127-128 | the bytes join the buffer, which is parsed as `AfterParse` says |
| TabConnectionModel.TabConnection.Close | tab-server/src/connection.rs:140-146 | every pending descriptor is closed |
| Layout.SaturatingAdd | app-framework/monitor-layout-engine/src/lib.rs:47 | the i32 sum, saturating at the limits |
| Layout.TouchSymmetric | app-framework/monitor-layout-engine/src/lib.rs:196-223 | touching and overlapping are symmetric |
| Layout.CornerContactIsNotTouch | app-framework/monitor-layout-engine/src/lib.rs:196-211 | monitors meeting only at a corner neither touch nor overlap |
| Layout.TouchExcludesOverlap | app-framework/monitor-layout-engine/src/lib.rs:196-223 | touching monitors never overlap with positive area |
| Layout.SearchVerdict | app-framework/monitor-layout-engine/src/lib.rs:62-81 | a finished search has marked every monitor exactly when all are reachable from the first |
| Layout.InsertById | app-framework/monitor-layout-engine/src/lib.rs:33-35 | inserting adds exactly one element |
| Layout.SortById | app-framework/monitor-layout-engine/src/lib.rs:33-35 | the sort is a permutation |
| Layout.InsertKeepsSorted | app-framework/monitor-layout-engine/src/lib.rs:33-35 | insertion keeps the ids sorted |
| Layout.SortByIdSorted | app-framework/monitor-layout-engine/src/lib.rs:33-35 | the sort is sorted by id and a permutation of its input |
| Layout.LayoutHorizontal | app-framework/monitor-layout-engine/src/lib.rs:33-50 | the monitors sorted by id, placed left to right at y = 0, each starting where the previous ends (saturating) |
| Layout.PackInOrder | app-framework/monitor-layout-engine/src/lib.rs:37-50 | the placement loop keeps the given order and packs left to right |
| Layout.HorizontalExample | app-framework/monitor-layout-engine/src/lib.rs:233-252 | `mon_b` and `mon_a` are placed as `mon_a` at 0 and `mon_b` at 1920 |
| Layout.PackedLayoutIsValid | app-framework/monitor-layout-engine/src/lib.rs:31-50 | packing positive-size monitors below the i32 limit gives a valid edge-contiguous layout |
| Layout.IsContiguous | app-framework/monitor-layout-engine/src/lib.rs:62-81 | true exactly when every monitor can be reached from the first across shared edges |
| Layout.BuildAdjacency | app-framework/monitor-layout-engine/src/lib.rs:99-111 | each list holds exactly the monitor's touch neighbours, and the degrees are the list lengths |
| Layout.DegreesDecideTouching | app-framework/monitor-layout-engine/src/lib.rs:113-116 | every monitor touches another exactly when no degree is zero |
| Layout.SearchAdjacency | app-framework/monitor-layout-engine/src/lib.rs:118-130 | the search along the lists is true exactly when all are reachable |
| Layout.IsValidEdgeContiguousLayout | app-framework/monitor-layout-engine/src/lib.rs:85-131 | true exactly for no positive-area overlap, every monitor touching another, and all reachable |
| Layout.ValidLayoutIsContiguous | app-framework/monitor-layout-engine/src/lib.rs:62-131 | the strict check implies the plain contiguity check |
| Layout.GapIsNotContiguous | app-framework/monitor-layout-engine/src/lib.rs:255-290 | a 20-pixel gap breaks contiguity |
| Layout.OverlapIsInvalid | app-framework/monitor-layout-engine/src/lib.rs:293-309 | an overlapping pair is not a valid layout |
| Layout.PermutationKeepsDistinctIds | app-framework/core/src/lib.rs:164-180 | a permutation of specs with distinct ids has distinct ids |
| Framework.ConfigFromToken | app-framework/core/src/lib.rs:45-53 | every setting but the token takes its default |
| Framework.ConfigFromEnv | app-framework/core/src/lib.rs:58-62 | a configuration exactly when the token variable is set; otherwise the missing-token error |
| Framework.FromTabMonitor | app-framework/core/src/lib.rs:150-161 | the reported id and size, placed at the origin |
| Framework.NewRuntime | app-framework/core/src/lib.rs:1650-1657 | no fence pending and no present owed |
| Framework.MoveBack | app-framework/core/src/lib.rs:592-622 | putting a monitor back where it was restores the table |
| Framework.Signaled | app-framework/core/src/lib.rs:1455-1507 | a fence whose polling fails counts as signaled |
| Framework.OwnershipRelatedExamples | app-framework/core/src/lib.rs:1438-1442 | a message mentioning a refused ownership is ownership-related; the empty one is not |
| Framework.FlushBuffer | app-framework/core/src/lib.rs:1455-1507 | a signaled fence is dropped and its present settled; otherwise nothing changes |
| Framework.FlushSettlesSignaledFences | app-framework/core/src/lib.rs:1455-1507 | after a flush, no signaled fence is pending and no present is owed for it; unsignaled ones stay |
| Framework.FlushIdempotent | app-framework/core/src/lib.rs:1455-1507 | flushing twice with the same poll results is flushing once |
| Framework.Requested | app-framework/core/src/lib.rs:1410-1413 | an accepted request leaves a present owed for the buffer |
| Framework.StoreFence | app-framework/core/src/lib.rs:950-952 | a release with a fence keeps the fence; nothing else moves |
| Framework.ReleaseNow | app-framework/core/src/lib.rs:953-962 | a release without a fence presents exactly when a present was owed, and none is owed afterwards |
| Framework.AtMostOnePresent | app-framework/core/src/lib.rs:936-976 | between two requests a buffer is presented at most once, and not at all if no present was owed |
| Framework.FencedReleasePresentsOnFlush | app-framework/core/src/lib.rs:936-976 | a release with a fence is presented once the fence signals and is flushed |
| Framework.PresentsOverExactly | app-framework/core/src/lib.rs:1455-1507 | a flush presents a buffer exactly when its fence signaled while a present was owed |
| Framework.RenderEvents | app-framework/core/src/lib.rs:1372-1453 | callbacks are made exactly when a buffer was acquired for a known monitor: none for an unknown monitor or a full swapchain |
| Framework.RenderEventsOverExactly | app-framework/core/src/lib.rs:1372-1453 | a monitor is rendered into a buffer exactly when it was scheduled, is known and the buffer was acquired |
| Framework.MoveEvents | app-framework/core/src/lib.rs:1509-1523 | a move is emitted exactly when the position changed |
| Framework.PackingCoversMonitors | app-framework/core/src/lib.rs:164-180 | the packing names every monitor, each with its own size |
| Framework.BuildMonitors | app-framework/core/src/lib.rs:737-742 | one runtime and one swapchain per reported monitor; each id's runtime comes from the last report with that id |
| Framework.LastReportsMeaning | app-framework/core/src/lib.rs:737-742 | the ids inserted are the reported ones, each maps to a report with that id and its runtime, and no later report carries the id |
| Framework.ReportedIds | app-framework/core/src/lib.rs:737-742 | the inserted ids are exactly the reported ones |
| Framework.ReportSources | app-framework/core/src/lib.rs:737-742 | each id maps to a report with that id, and its runtime is built from that report |
| Framework.LaterReportsWin | app-framework/core/src/lib.rs:737-742 | every report lies at or before the one its id maps to |
| Framework.FirstFailure | app-framework/core/src/lib.rs:737-742 | the first failed swapchain creation, and None exactly when none failed |
| Framework.Init | app-framework/core/src/lib.rs:722-781 | the first failed swapchain creation aborts `init` with that error; otherwise the framework is built as its constructor states |
| Framework.TabAppFramework.constructor | app-framework/core/src/lib.rs:721-781 | one monitor per report, laid out horizontally; all scheduled in Eager mode and none otherwise; no touch contact |
| Framework.TabAppFramework.CollectSpecs | app-framework/core/src/lib.rs:164-172 | each monitor's spec once, with distinct ids |
| Framework.TabAppFramework.RecomputeLayout | app-framework/core/src/lib.rs:164-180 | the monitors are packed horizontally in id order; only positions change |
| Framework.TabAppFramework.PlaceAll | app-framework/core/src/lib.rs:174-179 | each placed monitor moves to its placement; only positions change |
| Framework.TabAppFramework.CurrentLayout | app-framework/core/src/lib.rs:182-193 | every monitor once, at its current position |
| Framework.TabAppFramework.ApplyHorizontalLayout | app-framework/core/src/lib.rs:624-629 | the monitors are repacked and the cursor clamped into the new layout |
| Framework.TabAppFramework.SetMonitorPosition | app-framework/core/src/lib.rs:592-622 | an unknown monitor is an error; an invalid result is undone and reported; otherwise the monitor moves and the cursor is clamped |
| Framework.TabAppFramework.ScheduleFrame | app-framework/core/src/lib.rs:570-572 | the id is added to the scheduled set |
| Framework.TabAppFramework.ScheduleAllFrames | app-framework/core/src/lib.rs:575-577 | every known monitor is scheduled |
| Framework.TabAppFramework.HandleMonitorAdded | app-framework/core/src/lib.rs:890-917 | a failed swapchain aborts; otherwise the monitor is added afresh, scheduled in Eager mode, the layout repacked and the application told |
| Framework.TabAppFramework.HandleMonitorRemoved | app-framework/core/src/lib.rs:918-934 | the monitor leaves the table and the scheduled set, the rest is repacked, and the application is told |
| Framework.TabAppFramework.HandleBufferReleased | app-framework/core/src/lib.rs:936-976 | an unknown monitor is ignored; a fence is stored; otherwise the buffer is freed and presented exactly when a present was owed |
| Framework.TabAppFramework.HandleTouchDown | app-framework/core/src/lib.rs:1119-1176 | the contact is recorded; the first contact with no primary one becomes primary and acts as a pointer |
| Framework.TabAppFramework.HandleTouchMotion | app-framework/core/src/lib.rs:1177-1223 | the contact moves; only the primary one moves the cursor |
| Framework.TabAppFramework.HandleTouchUp | app-framework/core/src/lib.rs:1224-1248 | the contact goes; if it was primary, the pointer is released and a remaining contact becomes primary |
| Framework.TabAppFramework.HandleTouchCancel | app-framework/core/src/lib.rs:1252-1267 | every contact goes; a pointer-up is sent only if there was a primary one |
| Framework.TabAppFramework.FlushPendingReleases | app-framework/core/src/lib.rs:1455-1507 | each monitor is flushed as `FlushMonitor` says; in Eager mode, monitors that got a buffer back are scheduled |
| Framework.TabAppFramework.RenderScheduled | app-framework/core/src/lib.rs:1372-1453 | the scheduled set is drained and each monitor rendered; Eager mode reschedules unless the error was about ownership |
| Framework.FlushAll | app-framework/core/src/lib.rs:1455-1507 | the loop flushes every monitor once and collects exactly the presents, errors, releases and ready monitors the flush defines |
| Framework.RenderAll | app-framework/core/src/lib.rs:1372-1453 | the loop renders every target once and collects exactly the events, operations and reschedules the render defines |
| Framework.RenderOne | app-framework/core/src/lib.rs:1374-1451 | one target is rendered as `RenderAttempt` answers |

## Left out

- Sockets, the async runtime, `select` loops and channels: the handlers are modelled one event at a time, and the render channel is summarised by whether it is still open.
- Broadcast notifications (`notify_admins_session_state`, `notify_session_awake_change`, `broadcast_monitor_added/removed`, and the `notify_session_active` sent to every authenticated client when the active session changes, shift/src/server_layer/server.rs:1122-1136) are not modelled. Replies to the requesting client are, except one below.
- The `session_state` notices that `Auth` sends an admin client, one per active normal session (shift/src/server_layer/server.rs:490-502), are not modelled: `Server.Admitted` ends with the current-session notice.
- The debug second session, the debug auto-switch tick and the environment-launched initial session (`add_initial_session`) are not modelled: they are debugging and launch aids.
- `ClientView` is not part of this model. A delivered `notify_auth_success` is taken to bind the client's view to its session.
- The server's statistics counters and all logging are not modelled, except the two counters a delivered release touches.
- `apply_swap_request` and `apply_acquire_fence_signaled` are not part of this model. Their reports (which buffers to queue for release) are parameters.
- GPU and DRM work (texture import, `make_current`, drawing, committing) is not modelled. The outcome of each is a parameter, and textures are opaque values.
- `next_acquire_fence` persistence in the framework, the fd duplication that can fail, and closing of descriptors are not modelled. Descriptors are plain numbers.
- `TabSwapchain` is not part of this model. The buffer it hands out is a parameter, and the calls made on it are logged.
- `TabMessageFrame::parse_from_bytes` is not part of this model and is a parameter. The parser is assumed never to claim more bytes than it was given.
- TabConnectionModel.TabConnection.RecvFrame: the `EINTR` retry is not modelled. The parameter is the outcome of the last `recvmsg`. A failure to read the control messages is not modelled either.
- Floating-point arithmetic (cursor clamping, touch coordinate scaling, tablet axes, transition easing) is left out: clamped positions are passed in. Transition progress is modelled on reals.
- Key, pointer, gesture and `TouchFrame` forwarding, and the application callbacks, are not modelled. Callbacks appear only as an event log.
- The generic `on_input` callback that precedes every input event (app-framework/core/src/lib.rs:979-986) is not logged: the event log records only the per-kind callbacks that are modelled.
- The configuration setters, the OpenGL version request and the monitor scale factor are not modelled; the scale factor is always 1.
- Of the error paths of the framework's `init`, a missing session token is modelled by `Framework.ConfigFromEnv` and a failed `create_swapchain` by `Framework.Init`. The application's own `init` and the connection to the server are not modelled: their failures come from code outside this model.
- The i32 arithmetic of the touch and overlap tests is written on unbounded integers. The packing itself saturates at the i32 limit as the source does.
- `HashMap` and `HashSet` iteration order is not modelled: loops visit in an order chosen freely, and contracts hold for every order.
- Server.ShiftServer.HandleClientMessage: states only the invariant and the `Shutdown` case. Every other branch's effect is the contract of the handler it calls.
- Server.ShiftServer.HandleRenderEvent: states the `Started`, `MonitorOnline`, `FatalError` and `PageFlip` cases. The other four cases are the contracts of the handlers they call.
- Rendering.RenderingLayer.HandleCommand: states the running flag and the main effect of each command. Full effects are in `ImportFramebuffers`, `HandleSetActiveSession`, `HandleSessionRemoved` and `HandleSwapBuffers`.
- Rendering.RenderingLayer.DrawReadyMonitors: the drawing itself and per-monitor `make_current` failures are left out beyond the `drawable` parameter.
- Transition.Progress: computed on reals, not on `f64` seconds, so rounding is not modelled.
- Sessions.NewPending: the panic of `PendingSession::new` when the operating system's random source fails is not modelled. The random bytes are a parameter of exactly the token's length.
- Ownership.OwnershipManager.CurrentSlotKeyForSession: `current_slot_key_for_session` is called by the renderer but is not in the ownership source; it is modelled by analogy with `current_slot_key` (shift/src/rendering_layer/ownership.rs:40-45), for a given session instead of the current one.
- Ownership.OwnershipManager.MarkSlotClientOwned: `mark_slot_client_owned` is called by the command handler but is not in the ownership source; it is modelled as `set_owner(key, ClientOwned)` (shift/src/rendering_layer/ownership.rs:67-69).
