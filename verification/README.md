# toolcage, modelled and verified

toolcage is a stdio MCP server that runs another MCP server inside a WebAssembly sandbox. This project
models the parts of it that are written out in full (paging cursors, hashing, timestamps, policy files,
message framing, the session state machine, the wall-clock containment) and proves what they promise.

| file | what it models |
|---|---|
| `Bytes.dfy`, `Wrappers.dfy`, `TextOps.dfy`, `Order.dfy`, `OrderedMap.dfy` | byte strings, fixed-width integers, splitting, lexicographic order, `BTreeMap` |
| `Base64Url.dfy` | the strict base64url codec against the bit-stream definition of RFC 4648 |
| `Sha256.dfy`, `Hmac.dfy` | SHA-256 against the recurrences of FIPS 180-4, HMAC against RFC 2104 |
| `Sha256Constants.dfy`, `Sha256Example.dfy`, `Sha256Properties.dfy` | the constants of SHA-256 from their definition, the hash of "abc", what the hash keeps of its input |
| `Paginate.dfy` | snapshot ids, cursors, pages, and the walk of a client that follows cursors |
| `Calendar.dfy`, `Timestamp.dfy` | day numbers to Gregorian dates, RFC 3339 text |
| `Policy.dfy`, `PolicyProperties.dfy` | policy files from the parsed structs to the grant of every tool |
| `Rpc.dfy` | JSON-RPC lines, guest transcripts, finding the guest's answer |
| `Session.dfy`, `SessionProperties.dfy`, `SessionReplies.dfy`, `AuditPrivacy.dfy` | the server loop, what holds over every run of it, and what every line is answered with |
| `Spelling.dfy` | the byte constants (field and method names, policy words, revisions, the base64url alphabet) spelled out |
| `Sandbox.dfy` | the epoch deadline and the join timeout as interleaved timed steps; the outcome of a guest run |

How it is built:

- Code that works by changing things (`sha256`, the base64url loops, `hmac_sha256`, `build_grant`, `Session`)
  is a method or a class. Each is proved equal to a specification function, and the promises are proved
  about that function. Small spec functions that several results share (`Walk`, `Run`, `Served`) have no row below.
- A Rust string is its UTF-8 bytes, so the theorems hold for all byte strings.
- Every result about cursors and sessions holds for an arbitrary hash function; the methods use SHA-256.
- The JSON parser and printer, the guest, and the notion of a blank line are parameters, so the results
  hold for every choice of them. A guest may answer each call depending on everything it was asked before.
- What SHA-256 writes inline (rotations, `wrapping_add`, `from_be_bytes`) is a function each here, proved equal to
  the differently written one of the specification; the session's handlers take the replies written so far as a
  ghost argument, which they leave alone.
- Where specification and implementation share a function (building a mount, recognising an answer, relaying it,
  reading a line), a theorem states the result without it, in terms of the raw file, bytes or JSON value.

Where the code and its documentation part ways, the model follows the code:

- `Paginator::encode` casts the offset to `u32`. Following cursors reaches the end of the list if and
  only if the last page starts below 2^32 (`WalkEndsIff`); pages of one over 2^32 + 1 tools never end
  (`EndlessWalk`).
- `rfc3339_utc` has the fixed 24-character form exactly before the year 10000 (`TimestampLength`). Text order
  is time order for all instants before n if and only if n is at most the first instant of the year 10000
  (`SortsExactlyUpTo`). Two instants further on sort correctly if and only if the earlier year, with as many
  zeros after it as the later year has further digits, is at most the later year (`SortsIffYearsAligned`):
  any two of one number of year digits do, the pair around the start of 10000 does not (`MissortAtYear10000`).
- The README of toolcage says arguments and results are never written to the audit log, only names, counts, hashes,
  decisions, outcomes, budgets and timings. What the trail depends on is exactly this: on input that says the same
  apart from call arguments, two guests leave the same trail if and only if the arguments agree in length and hash
  and the answers in statistics, kind, result length, result hash, error flag, failure class and error `code`
  (`TrailsAgreeIff`). All of these are such figures except the `code`: it is content of the guest's answer, copied
  as it stands, whatever JSON it is (`ErrorCodeIsLogged`, `CodesDecideTrail`).

## Model

| member | source | states |
|---|---|---|
| Base64Url.DecodeIffEncode | src/paginate.rs:256-310 | for every string and byte string: decoding succeeds with d exactly when the string is the encoding of d, so accepted strings are the canonical ones and each has one spelling |
| Base64Url.EncodeBytes | src/paginate.rs:256-273 | the chunked shift-and-mask encoder writes the input's bit stream in 6-bit groups, zero bits added to the last |
| Base64Url.DecodeBytes | src/paginate.rs:286-310 | the accumulator loop accepts and returns what the bit-stream reading does: alphabet only, leftover shorter than a group and all zero |
| Base64Url.DecodeRound | src/paginate.rs:298-304 | whatever the overflowed high bits are, one character extends the stream of emitted bytes plus kept low bits by exactly its six bits |
| Base64Url.LengthOneModFour | src/paginate.rs:290-292 | no string of length 1 modulo 4 is canonical |
| Base64Url.LengthCheckIsNeeded | src/paginate.rs:288-308 | an accepted string of whole groups followed by "A" would pass the leftover test with the same bytes, so the length test is what rules it out |
| Base64Url.LeftoverCheckIsNeeded | src/paginate.rs:306-308 | whenever the last group of an encoding is not full there is a second string of the same length over the alphabet with the same whole bytes, and only the leftover test rejects it |
| Base64Url.TestVectors | src/paginate.rs:256-273 | the encodings of "f", "fo" and "foo" that section 10 of RFC 4648 gives |
| Base64Url.ValOfSymbol | src/paginate.rs:254-284 | the range lookup inverts the 64-entry alphabet |
| Base64Url.SymbolOfVal | src/paginate.rs:254-284 | every byte the lookup accepts is the alphabet entry of its value |
| Fips180.PadInjective | src/audit.rs:185-191 | messages of fewer than 2^61 bytes with equal padded forms are equal |
| Fips180.ZeroBytesLeast | src/audit.rs:187-190 | the padding uses the fewest zero bytes that reach 56 modulo 64 |
| Sha256.Schedule | src/audit.rs:193-210 | the reused 64-word array holds the W_t recurrence of section 6.2.2 of FIPS 180-4 for the current chunk, whatever it held before |
| Sha256.Chains | src/audit.rs:202-220 | chains of `wrapping_add`, whatever their order, are the sums modulo 2^32 of the standard, with every term in them |
| Sha256.RollingRounds | src/audit.rs:211-232 | the eight rolling variables after the loop are the 64 rounds of section 6.2.2 |
| Sha256.Update | src/audit.rs:194-241 | one chunk turns the eight-word array into the compression of its old value |
| Sha256.PadMessage | src/audit.rs:185-191 | the pushing loop produces the padding of section 5.1.1 |
| Sha256.Sha256 | src/audit.rs:180-248 | the result is the FIPS 180-4 hash of the message |
| Sha256Example.HashOfAbc | tests/audit_test.rs:19-24 | the hash of "abc" is the published one, with every word of its schedule and every round checked |
| Sha256Constants.RoundConstants | src/audit.rs:169-178 | each of the 64 constants is the first 32 bits of the fractional part of the cube root of its prime |
| Sha256Constants.InitialValue | src/audit.rs:181-184 | the initial hash value is those bits of the square roots of the first eight primes |
| Sha256Properties.RoundSeparates | src/audit.rs:213-231 | a round tells any two schedule words apart and any two values of the variables |
| Sha256Properties.RoundsSeparate | src/audit.rs:211-232 | for one chunk the rounds are a permutation of the hash values |
| Sha256Properties.ChunksSeparate | src/audit.rs:194-232 | from one hash value sixteen rounds tell any two chunks apart |
| Sha256Properties.CollisionIsInABlock | src/audit.rs:180-248 | two messages below 2^61 bytes have one hash only if they are equal or contain two different inputs of the compression with one result; padding and chaining add no collision |
| Hmac.HmacSha256 | src/paginate.rs:223-246 | in-place pads give H(K xor opad, H(K xor ipad, text)) of RFC 2104 for keys of any length |
| Hmac.InputsAre | src/paginate.rs:223-246 | byte by byte, the two hashed inputs are the key, or its hash if longer than 64 bytes, and zeros, combined with 0x36 and 0x5c, followed by the text and by the inner hash |
| Hmac.PadUndone | src/paginate.rs:233-236 | applying a pad twice gives the block key back, so a pad determines it |
| Hmac.HashedDiffer | src/paginate.rs:223-246 | the hashed inputs are equal only for equal block keys and, inside, equal texts; so equal tags of different keys or texts are a collision of the hash |
| Hmac.CtEq | src/paginate.rs:210-219 | accumulating every difference still decides equality |
| Paginate.FrameDetermines | src/paginate.rs:192-201 | framing is injective and prefix-free: a framed list followed by anything determines the names, their order and where the list ends |
| Paginate.SnapshotIdOf | src/paginate.rs:195-206 | the id is the first eight bytes of the hash of the framed names |
| Paginate.NewPaginator | src/paginate.rs:105-112 | key, page size, the snapshot of the names and their number |
| Paginate.Paginator.EncodeCursor | src/paginate.rs:152-162 | the cursor minted for an offset, the offset reduced to 32 bits |
| Paginate.Paginator.DecodeCursor | src/paginate.rs:164-189 | the same answer or the same rejection as the specification, for every string |
| Paginate.Paginator.GetPage | src/paginate.rs:122-150 | the page specified for the cursor, with its successor cursor if more remains |
| Paginate.OpenIffMinted | src/paginate.rs:152-189 | a cursor opens at o exactly when o is an interior page boundary below 2^32 and the string is the one minted for it, for any hash |
| Paginate.OpenIffMinted32 | src/paginate.rs:152-189 | with at most 2^32 tools the 32-bit bound is no restriction |
| Paginate.CursorBinds | src/paginate.rs:105-189 | a cursor minted under one key for one list opens under another key or list only by a collision of the truncated hash, and the two colliding inputs are given; it always opens at the offset it was minted for |
| Paginate.RequestsServed | src/paginate.rs:122-150 | what every request gets: everything, whatever the cursor, when paging is disabled; else the first page, the page the cursor was minted for with the cursor after it, or the rejection |
| Paginate.OpenOfMint | src/paginate.rs:152-189 | what any cursor minted under the same key gets: snapshot mismatch, the offset, or out of range |
| Paginate.RejectionReasons | src/paginate.rs:51-66 | each rejection reason is equivalent to what the string is: no cursor at all, a wrong tag, minted for another tool set, minted for no boundary |
| Paginate.WalkIsIdeal | src/paginate.rs:122-150 | the k-th answer of a client following cursors is the k-th tile, and there is none after the last |
| Paginate.WalkTiles | src/paginate.rs:122-189 | every answer succeeds, the slices tile the list in order without gap or overlap, none is empty unless the list is, and the walk ends after max(1, ceil(total/page size)) pages |
| Paginate.WalkEndsIff | src/paginate.rs:152-154 | the walk ends if and only if the last page starts below 2^32 |
| Paginate.EndlessWalk | src/paginate.rs:152-154 | following cursors through 2^32 + 1 tools in pages of one never ends |
| Calendar.CivilIsCorrect | src/audit.rs:149-161 | every day, negative ones included, becomes a valid Gregorian date whose independent day count is that day |
| Calendar.CivilInvertsDayNumber | src/audit.rs:149-161 | every valid date is reached from its day number |
| Calendar.CivilOfNextDay | src/audit.rs:149-161 | the next day is the calendar successor |
| Calendar.YearFormula | src/audit.rs:151-155 | the year-of-era quotient finds the century, 4-year group and year a day lies in |
| Calendar.MonthFormula | src/audit.rs:156-159 | the month quotient gives a valid month and day at the right distance from 1 March |
| Timestamp.PartsAreExact | src/audit.rs:134-142 | the fields are in range and add up to the input; the year stays below 10000 exactly before the end of 9999 |
| Timestamp.ParseOfTimestamp | src/audit.rs:134-147 | before the year 10000 the text parses back to the same millisecond |
| Timestamp.TimestampLength | src/audit.rs:143-146 | the text has 24 characters exactly before the year 10000 |
| Timestamp.TimestampText | src/audit.rs:143-146 | the text is year, month, day, hour, minute, second and millisecond padded to 4, 2, 2, 2, 2, 2 and 3 digits with `-`, `-`, `T`, `:`, `:`, `.` and `Z` after them |
| Timestamp.TimestampsSort | src/audit.rs:134-147 | before the year 10000 text order is time order |
| Timestamp.SortsExactlyUpTo | src/audit.rs:134-147 | all instants before n sort as text in the order of time if and only if n is at most the first instant of the year 10000 |
| Timestamp.SortsIffYearsAligned | src/audit.rs:134-147 | for any two instants, whatever their years, the earlier one sorts first if and only if its year, zeros appended up to the width of the later year, is at most the later year; otherwise it sorts after |
| Timestamp.MissortAtYear10000 | src/audit.rs:143-146 | the first timestamp of the year 10000 sorts before the last one of 9999 |
| ToolPolicy.BuildGrantLoop | src/policy.rs:305-346 | the inserting loops give the layered merge, or the first error in key order |
| ToolPolicy.BuildPolicyLoop | src/policy.rs:191-264 | the policy of the whole file, or the first error in file order |
| PolicyProperties.PolicyAccepted | src/policy.rs:191-264 | a file is accepted if and only if every value in it is legal where it takes effect |
| PolicyProperties.RejectionIsFirst | src/policy.rs:191-264 | a rejected file is blamed for something that is wrong with it, and for the first such thing in the order the file is checked |
| PolicyProperties.EveryGrantWellFormed | src/policy.rs:266-281 | every grant an accepted policy can decide has limits in range, good variable names, absolute guest paths other than / without .., and sorted unique keys |
| PolicyProperties.VacuumWellFormed | src/policy.rs:175-182 | the policy without a file allows every tool 30 s, 2 000 000 000 units of fuel, 256 MB and 4 096 KB of output, and nothing else |
| PolicyProperties.DecideIsThreeLayers | src/policy.rs:205-381 | the decision read off the raw file: allowed exactly when the file says so, denied as listed or unlisted; every limit, variable and mount of a grant is the tool's own, else the defaults section's, else the built-in limit or none; a mount is read-only for "ro" and read-write for "rw", and its host path is the one written, below the policy's directory if relative |
| PolicyProperties.DecideIsLayered | src/policy.rs:205-281 | a decision is the tool's entry laid over the policy's defaults grant, and that grant is the defaults section laid over the built-in limits |
| PolicyProperties.MergeIsLayered | src/policy.rs:305-346 | one section laid over another overrides key by key |
| PolicyProperties.RebuildIsIdentity | src/policy.rs:300-346 | flattening a well-formed grant and rebuilding it without overrides gives it back |
| PolicyProperties.NullEntryIsEmptyEntry | src/policy.rs:219-256 | a tool entry without a value and an empty one build the same policy |
| OrderedMap.LookupInsertAll | src/policy.rs:325-339 | after a merge each key has the merged value, or else the one before |
| OrderedMap.CollectSorted | src/policy.rs:300-302 | collecting entries already in order changes nothing |
| OrderedMap.LessMeans | src/policy.rs:325-339 | the key order is the one of byte strings: a proper prefix first, else the smaller byte at the first difference |
| Rpc.ParseLineIs | src/rpc.rs:47-91 | a line is a request, a notification, malformed or no JSON exactly by the value in it: version "2.0", a string method, an `id` of any kind or none |
| Rpc.TrimAscii | src/rpc.rs:225-241 | the shrinking loops compute the trimmed slice |
| Rpc.TrimParts | src/rpc.rs:225-241 | only white space is removed and none is left at either end |
| Rpc.TrimIsUnique | src/rpc.rs:225-241 | there is no other way to trim |
| Rpc.ExtractResponse | src/rpc.rs:197-223 | the scanning loop equals the fold over the lines |
| Rpc.ExtractJoin | src/rpc.rs:197-223 | on output joined by a newline counts add and the earlier answer wins, so later output never changes an answer found |
| Rpc.ExtractIsFirst | src/rpc.rs:191-223 | what is found is the first line that is, apart from white space, a JSON object with exactly the wanted id and a result or an error, and nothing is found exactly when no line is; the two counts are the lines with an object and those with anything else |
| Rpc.ToTranscript | src/rpc.rs:182-189 | every line followed by a newline, in order |
| Rpc.TranscriptLines | src/rpc.rs:182-189 | splitting a transcript gives the messages back and then end of input |
| Rpc.GuestReadsOneCall | src/rpc.rs:164-180 | the guest reads the handshake with id 1, the notification and one call with id 2, the client's tool and its arguments (an empty object for null), and then end of input, for all arguments the codec carries |
| Session.ClientSession.HandleLine | src/server.rs:61-93 | one line moves the session, the audit trail, the guest's history and the output exactly as the step function says |
| Session.ClientSession.HandleRequest | src/server.rs:95-138 | dispatch by method name, with the initialization gate |
| Session.ClientSession.HandleList | src/server.rs:164-224 | the reply and the one audit event of `tools/list` |
| Session.ClientSession.HandleCall | src/server.rs:226-346 | the reply, the counter, the audit event and the guest execution of `tools/call` on every exit path |
| Session.ClientSession.Finish | src/server.rs:349-357 | the closing event carries the counter |
| Session.PageInside | src/server.rs:202-222 | a served page starts at a multiple of the page size, holds at most a page, stays within the visible tools, and offers a cursor exactly when more follow |
| SessionProperties.RunKeepsInvariant | src/server.rs:226-346 | in every reachable state the counter is the number of call events, allowed events record the executions one for one, and every execution is of a probed tool with the grant decided for it, after initialization, and every event is true of the policy and the visible list |
| SessionProperties.ExecutionsAreAudited | src/server.rs:278-344 | as many executions as call events with decision allow |
| SessionProperties.ExecutionsAreContained | src/server.rs:261-278 | every execution of every run is under a well-formed grant |
| SessionProperties.RepliesMatchInput | src/server.rs:60-93 | the replies of a run carry, in order, one id per request and null per unparseable or malformed line, and nothing else |
| SessionProperties.InitializedIff | src/server.rs:78-83 | a session is initialized exactly from the first notifications/initialized on |
| SessionProperties.NothingBeforeInitialized | src/server.rs:119-130 | before that no guest has run, and listing and calling get -32002 |
| SessionProperties.FilterMembers | src/server.rs:149-159 | the visible tools are the probed ones the policy shows |
| SessionProperties.FilterSplits | src/server.rs:149-159 | filtering keeps probe order |
| SessionProperties.PagesShowOnlyVisible | src/server.rs:161-205 | whatever cursor is sent, a page holds only visible tools |
| SessionProperties.VisibleIffCallable | src/server.rs:242-278 | a probed tool is visible exactly when calling it runs the guest, and hidden exactly when the call is refused with -32003 |
| SessionProperties.OnPageIffVisible | src/server.rs:149-224 | a probed tool's definition is on one of the pages of the list if and only if the policy shows the tool, whenever the walk ends (last page start below 2^32) |
| SessionProperties.ListedIffCallable | src/server.rs:149-278 | a probed tool is on one of the pages exactly when calling it runs the guest, and on none exactly when the call is refused with -32003 |
| SessionProperties.GatheredIffCallable | src/server.rs:149-278 | the same of what a client has gathered by following cursors to the end, among other traffic, in any run |
| SessionProperties.ClientWalkIsFilteredProbe | src/server.rs:152-224 | following cursors to the end, with any other traffic in between, yields exactly the policy-filtered probe list in order |
| SessionProperties.Serve | src/main.rs:211-217 | after the input loop the closing event reports the true number of calls and the replies match the input |
| SessionReplies.OtherLines | src/server.rs:61-93 | over every run: blank lines and notifications are not answered, and only notifications/initialized changes anything; no JSON gets -32700 and no message -32600, both with a null id |
| SessionReplies.PlainRequests | src/server.rs:95-147 | over every run: `initialize` is answered and noted with the revision asked for if it is one of three, else 2025-06-18; ping with an empty result; other methods with -32601; listing and calling before initialization with -32002 |
| SessionReplies.ListRequests | src/server.rs:164-224 | over every run: a list request gets the page of its cursor, tool by tool, or -32602 with the reason, and one event with its figures |
| SessionReplies.CursorsDoNotTravel | src/server.rs:149-186 | a session whose visible tool names differ in number, kind or order opens no cursor of this one, unless the truncated hash collides on the two framed lists |
| SessionReplies.NamelessCalls | src/server.rs:227-237 | over every run: a call without a tool name gets -32602 and leaves no trace |
| SessionReplies.RefusedCalls | src/server.rs:238-276 | over every run: a call of an unknown tool gets -32602, one the policy denies -32003; each is counted and noted with the kind of denial and the length and hash of its arguments, and runs nothing |
| SessionReplies.ExecutedCalls | src/server.rs:278-346 | over every run: any other call runs the guest once under the tool's grant; the client gets the guest's result or error as it stands, -32000 for an answer that is neither, -32005 or -32000 with class and detail for a failure; the event holds statistics, timeout, mounts and the figures of the outcome |
| SessionReplies.OutputReachesClient | src/sandbox.rs:122-187 | over every run, from the bytes the guest printed to the reply: the result or error of the first line that answers request 2, else the failure its output or exit calls for |
| AuditPrivacy.LoggedIffSameFigures | src/server.rs:303-342 | what is logged of two answers is equal if and only if the answers are of one kind and agree in the length, hash and error flag of results, the `code` of errors, or the class of failures |
| AuditPrivacy.TrailsAgreeIff | src/server.rs:226-344 | on input that says the same apart from call arguments, two guests leave the same trail if and only if the arguments of all calls, denied ones included, agree in length and hash and the answers to every executed call agree in those figures and in statistics |
| AuditPrivacy.AnswersDecideTrail | src/server.rs:278-344 | on the very same input the executions match and the answers alone decide whether the trails agree |
| AuditPrivacy.TrailHidesContent | src/server.rs:278-344 | guests whose answers agree in those figures leave the same trail, whatever else differs in results, and in arguments of equal length and hash |
| AuditPrivacy.ErrorCodeIsLogged | src/server.rs:317-323 | every JSON value gets into the trail of a run: a guest that answers with an error of that `code` puts the value itself into the last event |
| AuditPrivacy.CodesDecideTrail | src/server.rs:317-323 | two guests that answer with errors leave the same trail of a run that executes a call if and only if the two codes are the same |
| Deadline.StepKeepsInvariant | src/sandbox.rs:95-100 | ticks, deadline, joiner and clock keep the spacing the guarantees rest on, step by step |
| Deadline.NeverInterruptedEarly | src/sandbox.rs:349-350 | with ticks at least 100 ms apart in any phase, no guest is interrupted before its full timeout |
| Deadline.EpochBeforeJoin | src/sandbox.rs:278-295 | with exact ticks and start-up within the grace, a computing guest is interrupted before the join budget runs out |
| Deadline.WaitIsBounded | src/sandbox.rs:278-295 | on every interleaving the wait lasts at most the timeout and 2.2 s, gives up only then, and until then something other than standing still can always happen |
| Deadline.NeverStuck | src/sandbox.rs:278-295 | however exact the ticks and prompt the interrupt, from every state of the invariant in which the joiner waits a proper step is possible, so no guarantee rests on time being locked |
| Deadline.WaitEnds | src/sandbox.rs:278-295 | in every run without idle steps a wait ends within a bounded number of steps, and no later than the join budget |
| Deadline.WaitCanEnd | src/sandbox.rs:278-295 | every run that has come to a wait extends to one that leaves it within the budget |
| Deadline.NoOverflow | src/sandbox.rs:278 | neither deadline computation overflows for limits a policy can hold |
| Outcome.CallResultOf | src/sandbox.rs:122-187 | completed exactly when the output is within budget and holds an answer, and with that answer; otherwise the failure class of the overflow or of the exit, with the trap's or host's detail; and every figure of the run |
| Outcome.OverflowIsVisible | src/sandbox.rs:306-309 | the pipe's slack keeps enough to tell output over 1024 bytes per KB of budget from output that just fits |

## Left out

- wasmtime and WASI: preopens, fuel, memory limits and the linker are foreign code; a guest run is an arbitrary result.
- JSON and YAML text: serde_json and serde_yaml are replaced by an arbitrary parser and printer, and policies start from the parsed structs.
- Rpc.GuestReadsOneCall: assumes the codec reads back the three messages of this transcript, each on one line, which serde_json without `float_roundtrip` does not promise for every float in the arguments.
- Cryptographic strength: nothing is claimed about forging tags or about hash collisions.
- Message wording: error messages, log field names and JSON object layout are replaced by datatypes; codes, ids and data are kept.
- Audit sinks and timestamps in events: the trail is a list whose writes never fail; session durations and file modes are not modelled.
- `sha256_hex`: hashes appear in events as bytes.
- Probe parsing (`parse_probe`), command-line handling, cursor key generation, `inspect` and `check`: input, output and easy branching.
- Integer limits of the host language where they cannot be reached: the call counter, line counters and day arithmetic are unbounded here.
- Deadline.WaitIsBounded: takes `recv_timeout` to return on time; scheduling delay after the budget is not modelled.
- Deadline.EpochBeforeJoin: assumes a guest that computes; one blocked in a host call is left to the join timeout, as the source says.
- Windows paths: joining a relative host path follows Unix rules.
