# turfwar, `__mkntpathat` and FreeBSD `pthread_setschedparam`, modelled in Dafny

This project models three parts of the cosmopolitan repository.

**The IPv4 Games server (`net/turfwar/turfwar.c`).**
- Nicknames: which nicknames are valid (`IsValidNick`).
- The claims queue: a ring buffer of 800 slots that the HTTP workers fill (`AddClaim`) and the database worker drains (`GetClaims`).
- What a worker decides for each request on a connection:
  - the handler the URI selects;
  - the address the request is attributed to, including the `X-Forwarded-For` override;
  - the nickname a `/claim` carries (`GetNick`);
  - the reply and its status;
  - whether the connection is kept for another request.
- The dotted-quad text of an address.
- The gzip member built around a deflate stream (`Gzip`).
- The cached assets: replaced wholesale by `ReloadAsset` and `Update`.
- The two JSON documents behind `/score` and `/recent` (`GenerateScore`, `GenerateRecent`).

**`libc/calls/mkntpathat.c`.** It turns a path relative to a directory descriptor into a NUL-terminated UTF-16 path in a caller's buffer.
- The path is joined to the directory's final path name.
- The errors are checked in the source's order.
- A trailing backslash is stripped, and the path is refused with `ENOTDIR` when it names something that is not a directory.

**`libc/thread/pthread_setschedparam_freebsd.c`.** It translates a POSIX policy and priority into FreeBSD's `struct rtprio` for `rtprio_thread`.

## How the model is built

- **Records become datatypes:** `Claim`, `Request`, `Reply`, `Generation`, `Rtprio`.
- **State the source updates in place becomes classes and arrays:**
  - the claims queue is a class over an `array<Claim>`;
  - an asset slot is a class whose generation is swapped;
  - `__mkntpathat` writes into an `array<char16>`.
- **Each imperative routine is a method proved against a specification function:**
  - `Claims.Contents` is the queue as a sequence;
  - `Serve` is the replies of a connection;
  - `ScoreBody` is the grouped leaderboard;
  - `Joined` and `Resolved` are the path and errno outcome;
  - `ReloadSpec` is the reload outcome.
- **Lemmas prove what those functions promise:**
  - first-in first-out order;
  - a claim only for a valid nickname, and at most one per free slot;
  - at most ten replies per connection, and only the last one closes it;
  - every valid row appears in exactly one group;
  - the gzip framing reads back;
  - the dotted quad parses back;
  - the errno order;
  - the priority order reverses.

## Model

| member | source | states |
|---|---|---|
| Nick.IsValidNick | net/turfwar/turfwar.c:249-270 | accepts exactly the names of 1 to 40 bytes made only of ASCII letters, digits and `@ / : . ^ + ! - _ *` |
| Nick.ValidNickIsInert | net/turfwar/turfwar.c:249-270 | a valid nickname holds no NUL, space, quote, apostrophe, backslash, `<`, `>` or `&`, so it can be pasted into the HTML of the claim page unescaped |
| Nick.NickExamples | net/turfwar/turfwar.c:249-270 | `Alice` is accepted; a name containing a space is refused, and so is the empty name |
| ClaimQueue.SlotIsModulo | net/turfwar/turfwar.c:311-312 | the write index, wrapped by one subtraction, is `(pos + count) mod 800` |
| ClaimQueue.RingViewPush | net/turfwar/turfwar.c:310-316 | writing the slot after the last queued claim extends the queue's contents by exactly that claim |
| ClaimQueue.RingViewPop | net/turfwar/turfwar.c:339-343 | advancing `pos` with wrap-around and decrementing `count` drops exactly the oldest claim |
| ClaimQueue.DrainStep | net/turfwar/turfwar.c:333-343 | while draining, the slot at `pos` holds the next claim still owed to the caller |
| ClaimQueue.Claims.constructor | net/turfwar/turfwar.c:217-228 | the zero-initialised queue is empty with `pos` 0 |
| ClaimQueue.Claims.AddClaim | net/turfwar/turfwar.c:301-323 | added exactly when the queue is not full; then the claim lands in slot `(pos + count) mod 800`, no other slot changes, and the contents gain the claim at the back; otherwise nothing changes |
| ClaimQueue.Claims.GetClaims | net/turfwar/turfwar.c:325-347 | returns `min(len, count)` (0 for `len <= 0`); the first `got` entries of `out` are the oldest claims in order; the rest of `out` is untouched; the queue keeps exactly the remainder |
| ClaimQueue.EnqueueThenDrain | net/turfwar/turfwar.c:301-347 | claims added to an empty queue come out in the order they went in, and the queue is empty again |
| DottedQuad.Octet | net/turfwar/turfwar.c:484-485 | `%hhu` of `ip >> k` is a single byte value |
| DottedQuad.FormatIp | net/turfwar/turfwar.c:484-485 | the dotted quad of any address is 7 to 15 bytes, so it fits `ipbuf[32]` |
| DottedQuad.ParseFormatIp | net/turfwar/turfwar.c:484-485 | reading the four decimal octets back yields the address: the text loses nothing |
| DottedQuad.FormatIpInjective | net/turfwar/turfwar.c:484-485 | two addresses with the same text are the same address |
| DottedQuad.OctetsRecombine | net/turfwar/turfwar.c:484-485 | the four bytes printed, weighted by 2^24, 2^16, 2^8 and 1, sum to the address |
| Bytes.Decimal | net/turfwar/turfwar.c:484-485 | `%hhu`/`%d` text of `n`: nonempty, only digits, no leading zero unless `n` is 0, and its decimal value is `n` |
| Bytes.SignedDecimal | net/turfwar/turfwar.c:826-827 | `%ld` text: a leading `-` exactly for negative numbers, followed by the digits of the magnitude |
| Bytes.DecimalInjective | net/turfwar/turfwar.c:484-485 | different numbers print differently |
| Bytes.DecimalOfByteLength | net/turfwar/turfwar.c:484-485 | a byte prints as 1 to 3 digits |
| GzipFrame.Le32 | net/turfwar/turfwar.c:682-683 | `WRITE32LE` writes four bytes |
| GzipFrame.ReadLe32OfLe32 | net/turfwar/turfwar.c:682-683 | reading the four bytes back little-endian gives the value modulo 2^32, so the size field is the length truncated to 32 bits |
| GzipFrame.Gzip | net/turfwar/turfwar.c:674-699 | the member is header + deflate stream + 8-byte footer long, as `res.n` computes |
| GzipFrame.ParseGzip | net/turfwar/turfwar.c:161-172 | a reader of the member finds the `kGzipHeader` prefix, the deflate stream unchanged, the CRC-32 of the data and its length mod 2^32 |
| Assets.Build | net/turfwar/turfwar.c:701-713 | a generation's gzip member frames the deflate of its own data with that data's checksum and length |
| Assets.Asset.Load | net/turfwar/turfwar.c:701-713 | a loaded asset keeps path and type, has the default cache policy and a coherent generation of the file's contents and time |
| Assets.Asset.Update | net/turfwar/turfwar.c:791-808 | on success the generator's data, gzip, time and date text replace the slot's; path, type and cache policy stay; on failure nothing changes; a coherent slot stays coherent when the generator's output is |
| Assets.Asset.Reload | net/turfwar/turfwar.c:715-750 | the outcome and new slot are those of `ReloadSpec`; path, type and cache stay |
| Assets.ReloadFailureKeeps | net/turfwar/turfwar.c:715-750 | a reload that reports failure leaves the slot as it was |
| Assets.ReloadOnlyWhenNewer | net/turfwar/turfwar.c:715-750 | the slot changes only when the file opened, is strictly newer, was allocated, and was read in full; then it holds those bytes and that time |
| Assets.ReloadReadFailure | net/turfwar/turfwar.c:725-750 | a newer, allocated file whose read comes up short reports failure and keeps the slot; a failed `read` (`CHECK_SYS` jumps to `OnError`) does the same |
| Assets.ReloadNotNewer | net/turfwar/turfwar.c:725-745 | a file that is not strictly newer, or whose buffer could not be allocated, reports success and keeps the slot |
| Assets.ReloadMonotone | net/turfwar/turfwar.c:715-750 | a slot's modification time never moves backwards |
| Assets.ReloadSpec | net/turfwar/turfwar.c:715-750 | no contract of its own: the outcome of `ReloadAsset` branch by branch; its properties are the `Reload…` and `SwapKeepsCoherence` rows |
| Assets.SwapKeepsCoherence | net/turfwar/turfwar.c:715-750 | a reload keeps a slot's data, gzip and date text belonging to one generation |
| Bytes.CString | net/turfwar/turfwar.c:840-842 | the string a C routine reads from stored bytes: the longest NUL-free prefix, ending just before the first NUL if there is one |
| Json.Name | net/turfwar/turfwar.c:840 | `strlcpy` into `name2` keeps exactly the first min(strlen, 40) bytes of the stored nickname, so the name holds no NUL |
| Json.NameStopsAtNul | net/turfwar/turfwar.c:840-841 | a stored nickname with a NUL inside is filed under the valid name before the NUL |
| Json.GroupsFlatten | net/turfwar/turfwar.c:838-856 | the groups, read in order, hold exactly the rows whose truncated nickname is valid |
| Json.GroupsWellGrouped | net/turfwar/turfwar.c:838-856 | every group is a nonempty run under one valid nickname, and neighbouring groups differ |
| Json.ScanRendersGroups | net/turfwar/turfwar.c:838-856 | after any prefix of rows, the loop's text is the groups so far with the last one open; `namestate` says whether a group was opened; `name1` is its nickname |
| Json.RenderOpenClosed | net/turfwar/turfwar.c:857 | closing the open group with `]` completes the rendering of all groups |
| Json.ExtendMirrors | net/turfwar/turfwar.c:849-853 | a row repeating the current nickname adds `,` and its entry to the open group |
| Json.OpenMirrors | net/turfwar/turfwar.c:842-848 | a row with a new nickname closes the open group, if any, and opens its own |
| Json.ScoreRowPass | net/turfwar/turfwar.c:839-855 | one pass of the row loop updates the text, `name1` and `namestate` exactly as the reference step `ScanStep` does |
| Json.ScoreCloses | net/turfwar/turfwar.c:857-858 | closing the open group, if any, and then the object turns the loop's text into the `now` stamp followed by the grouped leaderboard |
| Json.ScoreDocument | net/turfwar/turfwar.c:825-858 | the text built row by row is the `now` stamp followed by the grouped leaderboard object |
| Json.RecentEntriesAppend | net/turfwar/turfwar.c:925-936 | the entries of two runs of rows are the two lists joined by exactly one `,` and newline: the separator goes between entries, never before the first or after the last |
| Json.RecentDocument | net/turfwar/turfwar.c:907-936 | the text built row by row is the `now` stamp, then every row as one entry, in order and separated by `,` and a newline, then `]}` |
| Json.GenerateScore | net/turfwar/turfwar.c:810-869 | a database failure yields no asset; otherwise a JSON asset with a 60-second cache whose coherent generation is built from the leaderboard document |
| Json.GenerateRecent | net/turfwar/turfwar.c:892-951 | a database failure yields no asset; otherwise a JSON asset with no caching whose coherent generation is built from the recent-claims document |
| HttpWorker.UrlStartsWithIsPrefix | net/turfwar/turfwar.c:122-125 | the length test plus the byte comparison hold exactly when the path is a prefix of the URI |
| HttpWorker.FirstMatchIsEarliest | net/turfwar/turfwar.c:487-501 | the route chosen is the one of the first matching test, and no earlier test matches |
| HttpWorker.RouteOf | net/turfwar/turfwar.c:487-565 | no contract of its own: the if-chain on the URI; its properties are the `RouteOfIsFirstMatch` row |
| HttpWorker.RouteOfIsFirstMatch | net/turfwar/turfwar.c:487-565 | the if-chain picks the first of `/`, `/index.html`, `/favicon.ico`, `/about.html`, `/user.html`, `/score`, `/recent`, `/ip`, `/claim` that matches, else 404 |
| HttpWorker.NextOrigin | net/turfwar/turfwar.c:476-483 | a parseable `X-Forwarded-For` replaces the address; an unparseable one marks the request as IPv6 and keeps the address |
| HttpWorker.FirstValidNick | net/turfwar/turfwar.c:357-365 | nothing is found exactly when no `name` parameter has a valid value; anything found is valid |
| HttpWorker.FirstValidNickIsFirst | net/turfwar/turfwar.c:357-365 | the name found is that of the earliest qualifying parameter |
| HttpWorker.GetNick | net/turfwar/turfwar.c:349-369 | the scan finds a name exactly when one qualifies, and it is the first one |
| HttpWorker.Respond | net/turfwar/turfwar.c:503-651 | no contract of its own: the reply each handler sends; its properties are the `RespondDecides` row |
| HttpWorker.RespondDecides | net/turfwar/turfwar.c:531-651 | a claim is queued exactly for an IPv4 `/claim` with a valid name and room, carrying the address, time and name; the refusals (400 need IPv4, 400 invalid name, 502 queue full) close the connection; `/ip` from IPv4 returns the dotted quad; unmatched URIs get 404; the six asset routes get their cached asset with 200, compressed when the client accepts gzip; nothing else closes |
| HttpWorker.KeepAlive | net/turfwar/turfwar.c:656-662 | another message is read only after a full read and write, with fewer than 10 messages, no body headers, a GET or HEAD, and no shutdown; the count grows by at most one |
| HttpWorker.Step | net/turfwar/turfwar.c:470-662 | one request consumes one slot of room exactly when it is claimed, and continuing implies the reply did not close and the count stays below 10 |
| HttpWorker.Serve | net/turfwar/turfwar.c:469-662 | no contract of its own: the replies of one connection, stopping at an unusable request, a closing reply or a failed keep-alive test; its properties are the `Serve…` rows |
| HttpWorker.ServeBound | net/turfwar/turfwar.c:469-662 | a connection gets at most 10 replies |
| HttpWorker.ServeClosesLast | net/turfwar/turfwar.c:469-662 | only the last reply of a connection can be one that closes it |
| HttpWorker.ServeClaimsFit | net/turfwar/turfwar.c:565-612 | a connection queues no more claims than the queue had room for, each under a valid nickname |
| HttpWorker.HandleRequest | net/turfwar/turfwar.c:487-651 | the reply is the one decided for the request, and the queue gains exactly the claim it carries, if any |
| HttpWorker.Pass | net/turfwar/turfwar.c:470-662 | one pass of the message loop computes the next origin, reply, room and continuation as `Step` does, and queues the reply's claim |
| HttpWorker.ServeConnection | net/turfwar/turfwar.c:466-662 | the replies of a connection are those of `Serve`, at most 10, and the queue gains exactly their claims, in order |
| MkNtPathAt.Joined | libc/calls/mkntpathat.c:32-55 | no contract of its own: the path or errno of `__mkntpathat_impl`; its properties are the `Joined…` rows |
| MkNtPathAt.JoinedErrorOrder | libc/calls/mkntpathat.c:36-54 | invalid UTF-8 gives `EILSEQ` first, then the conversion error, then `ENOENT` for an empty path; absolute paths and `AT_FDCWD` pass through; a descriptor that is not a file gives `EBADF`, an unreported name the system's error, and a name that leaves no room for the backslash, the path and the NUL `ENAMETOOLONG` |
| MkNtPathAt.JoinedSucceeds | libc/calls/mkntpathat.c:36-54 | the join succeeds exactly when the path is valid, nonempty, and (if relative to a descriptor) the descriptor is a file with a nonempty name and `dir\file` plus NUL fits 1024 units; the result is the path itself or `dir\file`, nonempty and shorter than 1024 |
| MkNtPathAt.JoinedKeepsParts | libc/calls/mkntpathat.c:48-51 | a joined path is the directory name, one backslash, then the file path |
| MkNtPathAt.Strip | libc/calls/mkntpathat.c:69-73 | no contract of its own: the path with its trailing backslash dropped where the guard allows; its properties are the `StripRemovesSeparator` row |
| MkNtPathAt.StripRemovesSeparator | libc/calls/mkntpathat.c:69-73 | a trailing backslash is removed except from `\` alone and from a drive root such as `C:\`; nothing else changes |
| MkNtPathAt.Resolved | libc/calls/mkntpathat.c:57-82 | no contract of its own: the path or errno of `__mkntpathat`; its properties are the `Resolved…` rows |
| MkNtPathAt.ResolvedNotDir | libc/calls/mkntpathat.c:57-82 | `ENOTDIR` exactly when the joined path ends in a backslash and the stripped path exists as neither a directory nor a reparse point; join errors pass through; success returns the stripped path |
| MkNtPathAt.ResolvedFits | libc/calls/mkntpathat.c:57-82 | a successful result is a nonempty prefix of the joined path, at most one unit shorter, and under 1024 units |
| MkNtPathAt.Store | libc/calls/mkntpathat.c:37 | the converted path and its NUL occupy the front of the buffer; the rest is unchanged |
| MkNtPathAt.Copy | libc/calls/mkntpathat.c:49-50 | the `memcpy` copies exactly `n` units to position `at` and touches nothing else |
| MkNtPathAt.JoinInto | libc/calls/mkntpathat.c:48-50 | `file` ends up holding `dir`, a backslash, the file path and NUL |
| MkNtPathAt.MkNtPathAtImpl | libc/calls/mkntpathat.c:32-55 | returns the length or errno of `Joined`; on success `file` holds the joined path and NUL; an encoding or conversion failure leaves `file` untouched |
| MkNtPathAt.StripSeparator | libc/calls/mkntpathat.c:69-73 | the buffer holds the stripped path and NUL, the length is at most the old one, and the units beyond are unchanged |
| MkNtPathAt.MkNtPathAt | libc/calls/mkntpathat.c:57-82 | returns the length or errno of `Resolved`; on success `file` holds the resolved path and NUL |
| SchedFreeBsd.RtprioFor | libc/thread/pthread_setschedparam_freebsd.c:35-45 | no contract of its own: the `rtprio` each policy is given; its properties are the `RtprioForClasses` and `RtprioForReversesOrder` rows |
| SchedFreeBsd.SetSchedParam | libc/thread/pthread_setschedparam_freebsd.c:33-47 | no contract of its own: the kernel's answer to `rtprio_thread(RTP_SET, tid, &rtp)`; its properties are the `SetSchedParamUsesPriority` row |
| SchedFreeBsd.RtprioForClasses | libc/thread/pthread_setschedparam_freebsd.c:36-45 | RR and FIFO map to the real-time class, told apart only by the FIFO bit, and the policy and priority read back from the `rtprio`; every other policy is time-sharing at priority 0 |
| SchedFreeBsd.RtprioForReversesOrder | libc/thread/pthread_setschedparam_freebsd.c:36-41 | a POSIX priority in 0..31 becomes a FreeBSD priority in 0..31, with the order reversed |
| SchedFreeBsd.SetSchedParamUsesPriority | libc/thread/pthread_setschedparam_freebsd.c:33-47 | the kernel is asked the same thing for any priority under a non-real-time policy, and under a real-time policy two priorities get the same answer from every kernel exactly when they are equal |

## Left out

- Concurrency is not modelled:
  - the queue mutex and condition variables;
  - the asset read-write locks;
  - the `g_nowish` clock and the shutdown note.
- `AddClaim` on a full queue is modelled as its deadline having passed, so it returns false.
- `GetClaims` is modelled as not waiting: it returns what is queued, possibly nothing.
- The claims worker thread, the recent worker and the `main` set-up are not part of this model.
- Socket I/O (`accept`, `read`, `write`, `writev`) becomes inputs of a request:
  - whether the read was complete;
  - whether the write was complete;
  - whether shutdown was signalled.
- `ParseHttpMessage`, `ParseUrl`, `ParseForwarded` and `HeaderHas` are not shown, so a request is given already parsed. The HTTP version check and read failures are reduced to whether the request is usable.
- The byte layout of response headers is not modelled. This covers `FormatDate`, the `Content-Length` text and the HTML bodies; only the reply kind and its status are.
- zlib's `deflate`, `crc32_z`, `EscapeJsStringLiteral`, `FormatUnixHttpDateTime` and SQLite are function parameters. A query is its list of rows, or a failure anywhere between open and close.
- `GetNick` copies the name into `v->name` with `memcpy`. The copy is modelled as taking the value, since a valid nickname always fits the 41-byte field.
- The address is carried across keep-alive requests as written: `ip` is set from the peer once per connection, so a later request without `X-Forwarded-For` keeps the last forwarded address.
- Assets.Asset.Load: `LoadAsset` aborts the process through `CHECK_EQ`/`CHECK_NOTNULL` when `stat` or `xslurp` fails; the constructor is given what they returned and so models only the successful start-up.
- Json.GenerateScore and Json.GenerateRecent: besides a database error, the generators also return false when `clock_gettime` or an `appends`/`appendf` allocation fails; those failures are not modelled, so the result is absent only for a failed query.
- Logging is not modelled: the `LOG` lines in the worker (turfwar.c:574 and 596) and the `STRACE` of `mkntpathat` (mkntpathat.c:44) write only to the log.
- GzipFrame.Gzip: `Gzip` aborts the process through `CHECK_EQ` when zlib's `deflateInit2`, `deflate` or `deflateEnd` fails (turfwar.c:684 and 690-691); the model assumes they succeed.
- Stored nicknames are read as C strings (`Bytes.CString`), as `strlcpy`, `strcmp` and `%s` read them; bytes after a NUL never reach either document.
- `PATH_MAX` (its header is not shown) is fixed at 1024 units.
- `AT_FDCWD` is fixed at -100, and the errno values are symbolic.
- `isutf8`, `__mkntpath2`, `__isfdkind`, `GetFinalPathNameByHandle`, `__winerr` and `GetFileAttributesW` are inputs.
- MkNtPathAt.MkNtPathAtImpl: requires the converted path to be shorter than 1024 units. `__mkntpath2` fails rather than return a longer one. Its partial writes to `file` before a conversion error are not modelled.
- The `SCHED_RR` and `SCHED_FIFO` values are FreeBSD's (3 and 1). The width of the `rtprio` fields, whose header is not shown, is not modelled, so priorities are unbounded integers.
- SchedFreeBsd.SetSchedParam: the `rtprio_thread` system call is a parameter, and the model states only what it is asked.
