# chat-broken, modelled in Dafny

chat-broken is a small terminal tool for the League of Legends client. It
sends lobby invitations to friends and accepts pending invitations by talking
to the client's local HTTPS API, known as the LCU API.

The project models three source files:

- **`lcu/src/auth.rs`**, which discovers the credentials. It:
  - finds the client process by its executable name;
  - parses its `--key=value` command-line arguments;
  - builds the HTTP Basic credential `Basic base64("riot:<token>")`.
- **`lcu-rs/src/lcu.rs`**, the HTTP client wrapper. It:
  - attaches the Authorization header;
  - builds every URL as `https://127.0.0.1:<port>/<endpoint without leading slashes>`;
  - exposes the five verbs.
- **`chat-broken/src/main.rs`**, the program. It:
  - decodes the friend list, strictly;
  - runs one pass of the interactive loop.

In one pass of the loop, the user types a line.

- **A non-blank line** is a search query. The pass:
  - searches the friends by substring of their normalised names;
  - lists the matches;
  - reads a number and invites that friend.
- **A blank line** means accept-all. The pass:
  - fetches the pending invitations and decodes them, strictly;
  - accepts each one and reports each answer by its status.

The model is made of pure functions. Everything outside the program becomes a parameter:

- The process table is a sequence, in the order in which the map iterates it.
- The platform is an `Os` value.
- The peer is a `Server` function. It answers the `k`-th request of a pass with a status and a JSON body, or with a transport failure.
- Standard input is a sequence of read outcomes.
- The Unicode normalisation is a function `norm`.

An operation returns what it printed, what it sent, the input it left
unread, and its result.

The modules are:

| module | what it holds |
|---|---|
| `Wrappers`, `Bytes` | `Option` and `Result`; octets |
| `Text` | Rust's `trim`, `trim_start_matches`, `split`, `contains` and `usize` parsing and printing |
| `Base64` | padded base 64 of section 4 of RFC 4648, with a strict decoder as its partner |
| `Utf8` | the octets of a string, with a strict decoder as its partner |
| `JsonValue` | the part of `serde_json::Value` the tool reads |
| `LcuErrors`, `ChatErrors` | the two error enums |
| `Auth` | `auth.rs` |
| `Lcu` | `lcu.rs` |
| `ChatBroken` | `main.rs` |

Three behaviours of the code are easy to misread:

- **No pending invitations.** The program prints nothing; it does not print a "none found" line.
- **A selection that is not a number.** It ends the pass with `ParseIntError` ("could not parse string as int"), not with "invalid index".
- **Accept failures.** An accept answered with a non-2xx status is reported, and the loop goes on. A transport failure on an accept, however, ends the whole pass, because of the `?` in the loop.

## Model

| member | source | states |
|---|---|---|
| Auth.ProcName | lcu/src/auth.rs:94-99 | Windows is given `LeagueClientUx.exe` and macOS `LeagueClientUx`, and each of the two names belongs to exactly one platform |
| Auth.Auth.Port | lcu/src/auth.rs:55-57 | the port accessor returns the stored port, unchanged |
| Auth.ProcNames | lcu/src/auth.rs:80-81 | Windows looks for `LeagueClientUx.exe` and macOS for `LeagueClientUx`; the two names differ by `.exe`, so each platform has its own name |
| Auth.ParseArg | lcu/src/auth.rs:61-67 | an argument yields an entry exactly when it contains `=`; the entry's key and value are the fields around the first `=` after the leading dashes |
| Auth.ParseArgOfShape | lcu/src/auth.rs:63-66 | conversely, any argument made of dashes, then a key without `=` or a leading dash, then `=` and a value field yields exactly that key and value; text after a second `=` is dropped |
| Auth.InsertAllKeys | lcu/src/auth.rs:59-71 | the keys of the map built by successive inserts are exactly the keys of the entries |
| Auth.InsertAllLastWins | lcu/src/auth.rs:64-67 | an entry with no later entry of the same key gives its value in the final map |
| Auth.ParseCmd | lcu/src/auth.rs:59-71 | a key is in the argument map iff some argument parses to that key; the value is the one of the last argument with that key |
| Auth.ArgWithoutEqualsIgnored | lcu/src/auth.rs:62 | inserting or removing an argument without `=` anywhere in the list leaves the map unchanged |
| Auth.FindProcess | lcu/src/auth.rs:22-32 | none iff no process has the name; otherwise the first process with that name |
| Auth.NewAuth | lcu/src/auth.rs:18-44 | `NotRunning` iff no process has the platform's name; otherwise the chosen process's port and token, or a panic when the port (checked first) or the token is missing from its arguments |
| Auth.BasicAuthToken | lcu/src/auth.rs:46-53 | the token starts with `Basic `, and decoding the rest as base 64 and then as UTF-8 gives exactly `riot:<token>` |
| Auth.BasicAuthTokenShape | lcu/src/auth.rs:47-51 | the encoded part has 4 characters per started 3-octet group of `riot:<token>`, all from the alphabet except at most two final `=` |
| Auth.BasicAuthTokenInjective | lcu/src/auth.rs:46-53 | two credentials are equal only if their tokens are equal |
| Auth.BasicAuthTokenIsHeaderValue | lcu-rs/src/lcu.rs:20-21 | the credential is always an acceptable header value, so the `expect` when building the header never fires |
| Lcu.Send | lcu-rs/src/lcu.rs:44-46 | a transport failure becomes `RequestError`; otherwise the peer's reply is returned, whatever its status |
| Lcu.NewLcu | lcu-rs/src/lcu.rs:15-34 | succeeds iff credential discovery does, with the same error otherwise; the client keeps the discovered port and has the Basic credential as its Authorization header |
| Lcu.MakeUrl | lcu-rs/src/lcu.rs:36-42 | the URL is `https://127.0.0.1:<port>/` followed by a suffix of the endpoint that does not start with `/`; only slashes are dropped in front of it |
| Lcu.MakeUrlIgnoresLeadingSlash | lcu-rs/src/lcu.rs:40 | `x`, `/x` and `//x` give the same URL |
| Lcu.MakeUrlVerbatim | lcu-rs/src/lcu.rs:36-42 | an endpoint that does not start with `/` appears verbatim after the base |
| Lcu.Get | lcu-rs/src/lcu.rs:44-46 | a GET with the client's header and no body, to `https://127.0.0.1:<port>/` followed by the endpoint without its leading slashes |
| Lcu.Delete | lcu-rs/src/lcu.rs:48-50 | a DELETE with the client's header and no body, to `https://127.0.0.1:<port>/` followed by the endpoint without its leading slashes |
| Lcu.Post | lcu-rs/src/lcu.rs:52-63 | a POST with the client's header and the given JSON body, to `https://127.0.0.1:<port>/` followed by the endpoint without its leading slashes |
| Lcu.Put | lcu-rs/src/lcu.rs:65-76 | a PUT with the client's header and the given JSON body, to `https://127.0.0.1:<port>/` followed by the endpoint without its leading slashes |
| Lcu.Patch | lcu-rs/src/lcu.rs:78-89 | a PATCH with the client's header and the given JSON body, to `https://127.0.0.1:<port>/` followed by the endpoint without its leading slashes |
| Lcu.VerbsAgree | lcu-rs/src/lcu.rs:44-89 | the five verbs target the same URL with the client's header; only post, put and patch carry a body, which is the one given |
| Lcu.NewLcuRequests | lcu-rs/src/lcu.rs:15-34 | every request of a freshly built client carries the discovered credential and goes to the discovered port |
| Text.Trim | chat-broken/src/main.rs:93 | the result is a slice of the input, with only whitespace removed at both ends, and it neither starts nor ends with whitespace |
| Text.TrimEmptyIff | chat-broken/src/main.rs:93-94 | a line trims to the empty string iff it is all whitespace |
| Text.TrimStartMatches | lcu/src/auth.rs:63 | the result is a suffix of the input; only the given character was removed, and the result does not start with it |
| Text.SplitOnce | lcu/src/auth.rs:63-65 | no split iff the separator is absent; otherwise the input is the head, the separator and the tail, and the head has no separator |
| Text.FirstField | lcu/src/auth.rs:66 | the first field is the longest prefix without the separator |
| Text.Contains | chat-broken/src/main.rs:103 | a haystack that starts with the needle contains it, and a needle longer than the haystack is never contained |
| Text.ContainsIff | chat-broken/src/main.rs:98-103 | `Contains` holds iff the needle occurs at some position of the haystack |
| Text.NatToDecimal | chat-broken/src/main.rs:115 | the `Display` form of a number is a non-empty string of digits without a leading zero, unless the number is 0 |
| Text.DecimalValue | chat-broken/src/main.rs:115 | printing a number in decimal and reading the digits back gives the number |
| Text.ParseUsizeOfDecimal | chat-broken/src/main.rs:124 | the decimal text of any `usize`, with or without a `+`, parses back to it |
| Text.ParseUsizeRejects | chat-broken/src/main.rs:124 | a character that is not a digit, other than a leading `+`, makes the parse fail |
| Text.ParseUsizeOfDigits | chat-broken/src/main.rs:124 | any non-empty digit string, with or without a leading `+` and canonical or not (`"02"` is 2), parses to its value when that fits in a `usize`, and fails when it overflows |
| Text.ParseUsizeNoDigits | chat-broken/src/main.rs:124 | the empty string and a lone `+` are refused |
| Text.ParseUsizeAccepts | chat-broken/src/main.rs:124 | an accepted text is all digits apart from an optional leading `+`, and ends with a digit, so it has at least one |
| Base64.Encode | lcu/src/auth.rs:47-51 | an encoding has 4 characters per started group of 3 octets |
| Base64.EncodeShape | lcu/src/auth.rs:49-50 | the `=` characters of an encoding are exactly its last 0, 1 or 2 characters, as the input length modulo 3 requires; all others are from the alphabet |
| Base64.EncodeChars | lcu/src/auth.rs:49-52 | every character of an encoding is printable ASCII, so the token is valid UTF-8 |
| Base64.DecodeEncode | lcu/src/auth.rs:49-50 | decoding an encoding gives back the octets |
| Base64.EncodeDecode | lcu/src/auth.rs:49-50 | every string the strict decoder accepts is the encoding of its result |
| Base64.Rfc4648Vectors | lcu/src/auth.rs:49 | the encoder gives the test vectors of section 10 of RFC 4648 for the prefixes of "foobar" |
| Utf8.Encode | lcu/src/auth.rs:50 | a string takes between one and four octets per character |
| Utf8.DecodeEncode | lcu/src/auth.rs:50 | decoding the UTF-8 octets of a string gives back the string |
| Utf8.EncodeAppend | lcu/src/auth.rs:50 | the octets of `riot:` followed by the token are the octets of each part, in order |
| Utf8.EncodeAscii | lcu/src/auth.rs:50 | an ASCII string is one octet per character, each its code |
| JsonValue.AsArray | chat-broken/src/main.rs:37 | some iff the value is an array, and then exactly its items |
| JsonValue.AsObject | chat-broken/src/main.rs:44 | some iff the value is an object, and then exactly its fields |
| JsonValue.Get | chat-broken/src/main.rs:48-66 | some iff the key is a field, and then that field's value |
| JsonValue.AsStr | chat-broken/src/main.rs:50 | some iff the value is a string, and then that string |
| JsonValue.AsU64 | chat-broken/src/main.rs:58 | some iff the value is an integer from 0 to the largest `u64`, and then that integer; a float such as `1.0` is refused |
| ChatBroken.OkOr | chat-broken/src/main.rs:38-40 | `ok_or`: a present value is passed on unchanged, and a missing one becomes the given `InvalidDataError` |
| ChatErrors.MessageNamesVariant | chat-broken/src/error.rs:7-21 | two errors print the same message iff they are of the same variant |
| ChatBroken.DecodeFriend | chat-broken/src/main.rs:43-72 | success iff the value is an object with a string name, a `u64` summoner id and a string availability; each missing or mistyped field gives its own error, checked in that order |
| ChatBroken.DecodeAll | chat-broken/src/main.rs:41-74 | success iff every item decodes, keeping order and length; on failure, the error is the first failing item's |
| ChatBroken.DecodeFriends | chat-broken/src/main.rs:36-74 | success iff the value is an array of well-formed friends, one friend per item; a non-array gives "friends list is not array" |
| ChatBroken.DecodeInvite | chat-broken/src/main.rs:153-163 | success iff the value is an object with a string `invitationId`, which is the result; each missing or mistyped field gives its own error |
| ChatBroken.DecodeInvites | chat-broken/src/main.rs:147-166 | success iff the value is an array of well-formed invitations, one id per item, in order; a non-array gives "invites is not array" |
| ChatBroken.Search | chat-broken/src/main.rs:96-107 | every friend kept matches the query, and no more friends are kept than there are |
| ChatBroken.SearchIsMatchingSubsequence | chat-broken/src/main.rs:96-107 | the matches are the friends whose normalised name contains the normalised query, in the friend list's order: a friend is kept iff it matches |
| ChatBroken.Listing | chat-broken/src/main.rs:114-116 | one line per match, the `i`-th being `[i] name - availability`, numbered from 1 |
| ChatBroken.Select | chat-broken/src/main.rs:122-128 | not a number gives `ParseIntError`; `0` or a number past the list gives `InvalidIndexError`; `n` in range picks the `n`-th match |
| ChatBroken.ListedNumberSelects | chat-broken/src/main.rs:115-128 | typing the number shown in front of a match, with any surrounding whitespace, selects that match |
| ChatBroken.OutOfRangeRefused | chat-broken/src/main.rs:125-128 | `0` and the number after the last match are refused as `InvalidIndexError` |
| ChatBroken.ReadLine | chat-broken/src/main.rs:92 | reads one line, or an empty line at the end of the input, and consumes exactly one outcome; a read failure is `IoError` |
| ChatBroken.AcceptRequests | chat-broken/src/main.rs:167-173 | one accept POST per invitation, in order, to `/lol-lobby/v2/received-invitations/<id>/accept` with the body `{"invitationId": id}` |
| ChatBroken.AcceptAll | chat-broken/src/main.rs:167-179 | the requests sent are a prefix of the accepts; on success all were sent and each printed one line; a failure is `RequestError`, after the last request sent, which printed nothing |
| ChatBroken.AcceptAllSucceeds | chat-broken/src/main.rs:167-179 | the accept loop succeeds iff every accept gets a reply, whatever its status; when it fails, the failed POST is the one right after the last printed line |
| ChatBroken.AcceptAllPrints | chat-broken/src/main.rs:174-178 | each printed line is the success or failure message chosen by that accept's own status |
| ChatBroken.EveryInvitationAnswered | chat-broken/src/main.rs:167-179 | with `N` answered invitations: exactly `N` POSTs in order, `N` lines each reporting its own status, and success |
| ChatBroken.NoInvitationsNoPost | chat-broken/src/main.rs:141-179 | an empty invitation list sends only the fetch, prints nothing after the prompt, and succeeds |
| ChatBroken.AcceptBranch | chat-broken/src/main.rs:141-179 | the accept branch first fetches the pending invitations and sends nothing but POSTs after that; every printed line follows a request |
| ChatBroken.AcceptAllOutcome | chat-broken/src/main.rs:141-179 | after a blank line, a failed fetch, a body that is not JSON or a malformed list ends the pass before any POST with the corresponding error; otherwise the accept loop runs on the decoded ids |
| ChatBroken.MainLoop | chat-broken/src/main.rs:83-182 | a pass always consumes at least one input line when there is one |
| ChatBroken.LoopTurnReportsError | chat-broken/src/main.rs:77-79 | a failed pass is followed by exactly one `Error: <message>` line, the error's own message |
| ChatBroken.LoopTurn | chat-broken/src/main.rs:76-80 | a turn of the loop prints what the pass printed, plus one `Error: <message>` line exactly when the pass failed; its requests and the input it leaves are the pass's own |
| ChatBroken.BlankLineAcceptsAll | chat-broken/src/main.rs:89-94 | a blank line goes to accept-all: the pass depends neither on the friends nor on the normalisation, prints the prompt, reads one line and first fetches the invitations |
| ChatBroken.NonBlankLineSearches | chat-broken/src/main.rs:91-96 | a non-blank line is trimmed and used as the query of the search branch, after the prompt |
| ChatBroken.SearchBranch | chat-broken/src/main.rs:95-140 | the search branch sends at most one request, and without matches it sends nothing, reads nothing more and succeeds |
| ChatBroken.PickAndInvite | chat-broken/src/main.rs:113-140 | after the listing and the prompt, it reads exactly one line, prints at most one more line and sends at most one request |
| ChatBroken.InviteFriend | chat-broken/src/main.rs:130-140 | it sends exactly the chosen friend's invitation; it fails iff that request hits a transport failure, printing nothing more, and otherwise prints one report line |
| ChatBroken.NoMatchesEndsPass | chat-broken/src/main.rs:108-111 | a search without matches prints "No matches found", sends nothing and succeeds, having read one line |
| ChatBroken.SelectionOutcome | chat-broken/src/main.rs:113-135 | with matches: listing and prompt first; then no number, `0` and out-of-range numbers send nothing, with the matching error, and a listed number sends exactly that match's invitation |
| ChatBroken.PickSendsAtMostOneInvite | chat-broken/src/main.rs:119-135 | the search branch sends at most one request, the invitation of one of the matches |
| ChatBroken.InviteReported | chat-broken/src/main.rs:130-140 | the invitation prints "Invited" on a 2xx status and "Failed to invite" otherwise; a transport failure ends the pass with the API error |
| ChatBroken.BadSelectionReported | chat-broken/src/main.rs:76-80 | a refused selection is shown as `Error: <message>` after the listing, with nothing sent, and the loop continues after the two lines read |
| ChatBroken.StartWith | chat-broken/src/main.rs:22-74 | once `Lcu::new` has returned, nothing is sent iff it failed; otherwise exactly the friend-list GET is sent, with no output and no input read; the loop only starts with that client |
| ChatBroken.Start | chat-broken/src/main.rs:18-74 | `main` up to the loop sends nothing iff building the client fails, and the loop only starts with the client `Lcu::new` built |
| ChatBroken.StartNotRunning | chat-broken/src/main.rs:22-30 | with no client process: both notices are printed, one line is waited for, nothing is sent, and the program panics, or stops with the read error |
| ChatBroken.StartReady | chat-broken/src/main.rs:22-74 | the loop is reached iff the client is built and the friend list is fetched as JSON and is well formed; it then runs with that list, after one request and no output |
| ChatBroken.StartPanics | chat-broken/src/main.rs:22 | a panic in credential discovery ends the program at once, with nothing printed or sent |
| ChatBroken.StartBadFriends | chat-broken/src/main.rs:31-74 | a malformed friend list ends the program with its decoding error, after the one request |
| ChatBroken.AnaAnnaScenario | chat-broken/src/main.rs:94-135 | a worked pass: the query `an` over Ana and Anna lists both, and `2` invites Anna with `[{"toSummonerId": 2}]` |

## Left out

- Process enumeration (`sysinfo`): the process table is a parameter, as a sequence in the map's iteration order; "the first match" stands for `find_map`.
- `Os::get_os` and its "unsupported os" panic: the platform is a parameter, and only Windows and macOS are modelled.
- TLS, loading the certificate and building the `reqwest` client: the peer is a function of the request index and the request. The `expect`s on certificate loading and on client building are taken to succeed.
- Parsing JSON text and serialising request bodies: bodies are JSON value trees, and a body that is not JSON is a missing tree.
- `async`/`tokio` and the endless `loop` in `main`: one pass, and one turn of the loop, are modelled. A later pass is the same function applied to the remaining input, with a `server` of its own, because each pass numbers its requests from 0.
- `stdout.flush()` failing: the flush is taken to succeed.
- NFKD normalisation and lower-casing: these are the `norm` parameter. No property depends on what it does, except the worked scenario, which states its assumptions about `norm`.
- What happens after a panic or after `main` returns an error: a panic is a `Panicked` outcome, and an error is an `Exited` outcome.
- The `Debug` and `Display` output of `main`'s error is not modelled; only the loop's `Error: <message>` line is.
- `usize` is taken to be 64 bits wide.
- Reading standard input: end of input reads as an empty line, which is what `read_line` gives at end of file. A read failure is `IoError`.
- Base64.Encode: its own contract gives only the length; which characters appear is stated by `Base64.EncodeShape`, and what they mean by `Base64.DecodeEncode` and `Base64.EncodeDecode`.
- Utf8.Encode: its own contract bounds the length only; the octets themselves are pinned by `Utf8.DecodeEncode`.
- `lcu/src/lib.rs` is a list of re-exports, and the `#[cfg(test)]` modules need a running client, so neither is part of this model.
