/** The command-line tool (`chat-broken/src/main.rs`): startup (client
    construction and the one-time friend list fetch) and one pass of the
    interactive loop, as pure functions of their inputs.

    Inputs that the program reads from the outside world are parameters:
    - `stdin`: the lines the user types, each of which may fail to read;
      once they run out, reading gives an empty line, as `read_line` does
      at end of input;
    - `server`: the answer to the `k`-th request of the run (`Lcu.Server`);
    - `norm`: the Unicode normalisation applied before matching names
      (compatibility decomposition, then lower case). */
module ChatBroken {
  import opened Wrappers
  import opened Text
  import opened JsonValue
  import opened LcuErrors
  import opened ChatErrors
  import opened Auth
  import opened Lcu

  datatype Friend = Friend(name: string, summonerId: u64, availability: string)

  // ---------------------------------------------------------------------
  // Strict decoding of the peer's JSON

  /** `Option::ok_or(InvalidDataError(what))`: a missing value becomes the
      given decoding error. */
  function OkOr<T>(o: Option<T>, what: string): (r: Result<T, ChatError>)
    ensures r.Success? <==> o.Some?
    ensures r.Success? ==> r.value == o.value
    ensures r.Failure? ==> r.error == InvalidDataError(what)
  {
    match o
    case Some(v) => Success(v)
    case None => Failure(InvalidDataError(what))
  }

  /** The shape a friend entry must have: an object with a string `name`, a
      `u64` `summonerId` and a string `availability`; other fields do not
      matter. */
  ghost predicate IsFriendObject(j: Json) {
    HasName(j) && HasSummonerId(j) && "availability" in j.fields && j.fields["availability"].Str?
  }

  /** An object whose `name` is a string. */
  ghost predicate HasName(j: Json) {
    j.Object? && "name" in j.fields && j.fields["name"].Str?
  }

  /** An object whose `name` is a string and whose `summonerId` is a `u64`. */
  ghost predicate HasSummonerId(j: Json) {
    HasName(j) && "summonerId" in j.fields && AsU64(j.fields["summonerId"]).Some?
  }

  /** One friend entry. The checks run in field order (name, summonerId,
      availability) and, within a field, presence before type; the first
      failing check names the error. */
  function DecodeFriend(j: Json): (r: Result<Friend, ChatError>)
    ensures r.Success? <==> IsFriendObject(j)
    ensures r.Success? ==> (&& r.value.name == j.fields["name"].s
                            && r.value.summonerId == j.fields["summonerId"].n.i
                            && r.value.availability == j.fields["availability"].s)
    ensures !j.Object? ==> r == Failure(InvalidDataError("friend is not object"))
    ensures j.Object? && "name" !in j.fields ==> r == Failure(InvalidDataError("no name in friend"))
    ensures j.Object? && "name" in j.fields && !j.fields["name"].Str? ==>
      r == Failure(InvalidDataError("name is not string"))
    ensures j.Object? && "name" in j.fields && j.fields["name"].Str? && "summonerId" !in j.fields ==>
      r == Failure(InvalidDataError("no summoner id in friend"))
    ensures HasName(j) && "summonerId" in j.fields && AsU64(j.fields["summonerId"]).None? ==>
      r == Failure(InvalidDataError("summoner id is not number"))
    ensures HasName(j) && HasSummonerId(j) && "availability" !in j.fields ==>
      r == Failure(InvalidDataError("no availability in friend"))
    ensures HasName(j) && HasSummonerId(j) && "availability" in j.fields && !j.fields["availability"].Str? ==>
      r == Failure(InvalidDataError("availability is not string"))
  {
    var obj :- OkOr(AsObject(j), "friend is not object");
    var nameJson :- OkOr(JsonValue.Get(obj, "name"), "no name in friend");
    var name :- OkOr(AsStr(nameJson), "name is not string");
    var idJson :- OkOr(JsonValue.Get(obj, "summonerId"), "no summoner id in friend");
    var id :- OkOr(AsU64(idJson), "summoner id is not number");
    var availJson :- OkOr(JsonValue.Get(obj, "availability"), "no availability in friend");
    var availability :- OkOr(AsStr(availJson), "availability is not string");
    Success(Friend(name, id, availability))
  }

  /** One pending invitation: an object with a string `invitationId`. */
  ghost predicate IsInviteObject(j: Json) {
    j.Object? && "invitationId" in j.fields && j.fields["invitationId"].Str?
  }

  function DecodeInvite(j: Json): (r: Result<string, ChatError>)
    ensures r.Success? <==> IsInviteObject(j)
    ensures r.Success? ==> r.value == j.fields["invitationId"].s
    ensures !j.Object? ==> r == Failure(InvalidDataError("invite is not object"))
    ensures j.Object? && "invitationId" !in j.fields ==> r == Failure(InvalidDataError("no invitation id in invite"))
    ensures j.Object? && "invitationId" in j.fields && !j.fields["invitationId"].Str? ==>
      r == Failure(InvalidDataError("invitation id is not string"))
  {
    var obj :- OkOr(AsObject(j), "invite is not object");
    var idJson :- OkOr(JsonValue.Get(obj, "invitationId"), "no invitation id in invite");
    OkOr(AsStr(idJson), "invitation id is not string")
  }

  /** `items.iter().map(decodeOne).collect::<Result<Vec<_>, _>>()`: all
      items decoded in order, or the error of the first item that fails. */
  function DecodeAll<T>(items: seq<Json>, decodeOne: Json -> Result<T, ChatError>): (r: Result<seq<T>, ChatError>)
    ensures r.Success? <==> forall i :: 0 <= i < |items| ==> decodeOne(items[i]).Success?
    ensures r.Success? ==> (&& |r.value| == |items|
                            && forall i :: 0 <= i < |items| ==> r.value[i] == decodeOne(items[i]).value)
    ensures r.Failure? ==> exists i :: (&& 0 <= i < |items|
                                        && decodeOne(items[i]) == Failure(r.error)
                                        && forall j :: 0 <= j < i ==> decodeOne(items[j]).Success?)
    decreases |items|
  {
    if |items| == 0 then Success([])
    else
      match decodeOne(items[0])
      case Failure(e) => Failure(e)
      case Success(first) =>
        var rest := DecodeAll(items[1..], decodeOne);
        assert forall i :: 1 <= i < |items| ==> items[1..][i - 1] == items[i];
        match rest
        case Failure(e) =>
          ghost var i :| 0 <= i < |items[1..]| && decodeOne(items[1..][i]) == Failure(e) &&
            forall j :: 0 <= j < i ==> decodeOne(items[1..][j]).Success?;
          assert decodeOne(items[i + 1]) == Failure(e);
          Failure(e)
        case Success(others) => Success([first] + others)
  }

  /** The friend list: an array of friend objects, in order. */
  function DecodeFriends(j: Json): (r: Result<seq<Friend>, ChatError>)
    ensures r.Success? <==> j.Array? && forall i :: 0 <= i < |j.items| ==> IsFriendObject(j.items[i])
    ensures r.Success? ==> (&& |r.value| == |j.items|
                            && forall i :: 0 <= i < |j.items| ==> r.value[i] == DecodeFriend(j.items[i]).value)
    ensures !j.Array? ==> r == Failure(InvalidDataError("friends list is not array"))
    ensures j.Array? && r.Failure? ==> exists i :: (&& 0 <= i < |j.items|
                                                    && !IsFriendObject(j.items[i])
                                                    && r.error == DecodeFriend(j.items[i]).error
                                                    && forall k :: 0 <= k < i ==> IsFriendObject(j.items[k]))
  {
    var items :- OkOr(AsArray(j), "friends list is not array");
    DecodeAll(items, DecodeFriend)
  }

  /** The pending invitation ids: an array of invitation objects, in order. */
  function DecodeInvites(j: Json): (r: Result<seq<string>, ChatError>)
    ensures r.Success? <==> j.Array? && forall i :: 0 <= i < |j.items| ==> IsInviteObject(j.items[i])
    ensures r.Success? ==> (&& |r.value| == |j.items|
                            && forall i :: 0 <= i < |j.items| ==> r.value[i] == j.items[i].fields["invitationId"].s)
    ensures !j.Array? ==> r == Failure(InvalidDataError("invites is not array"))
    ensures j.Array? && r.Failure? ==> exists i :: (&& 0 <= i < |j.items|
                                                    && !IsInviteObject(j.items[i])
                                                    && r.error == DecodeInvite(j.items[i]).error
                                                    && forall k :: 0 <= k < i ==> IsInviteObject(j.items[k]))
  {
    var items :- OkOr(AsArray(j), "invites is not array");
    DecodeAll(items, DecodeInvite)
  }

  // ---------------------------------------------------------------------
  // Search

  /** A friend matches when the normalised query occurs in the normalised
      name. */
  predicate IsMatch(f: Friend, query: string, norm: string -> string) {
    Contains(norm(f.name), norm(query))
  }

  /** The friends that match, in list order, as the search loop pushes them. */
  function Search(friends: seq<Friend>, query: string, norm: string -> string): (r: seq<Friend>)
    ensures |r| <= |friends|
    ensures forall k :: 0 <= k < |r| ==> IsMatch(r[k], query, norm)
    decreases |friends|
  {
    if |friends| == 0 then []
    else
      var init := Search(friends[..|friends| - 1], query, norm);
      var last := friends[|friends| - 1];
      if IsMatch(last, query, norm) then init + [last] else init
  }

  /** `r` is the subsequence of `s` at the strictly increasing positions
      `idx`. */
  ghost predicate SubsequenceAt<T>(r: seq<T>, s: seq<T>, idx: seq<nat>) {
    && |idx| == |r|
    && (forall k :: 0 <= k < |idx| ==> idx[k] < |s| && r[k] == s[idx[k]])
    && (forall k, l :: 0 <= k < l < |idx| ==> idx[k] < idx[l])
  }

  /** The search result is exactly the subsequence of the friends that
      match: it sits in the list at increasing positions, and those positions
      are exactly the matching ones. */
  lemma {:induction false} SearchIsMatchingSubsequence(friends: seq<Friend>, query: string, norm: string -> string)
    returns (idx: seq<nat>)
    ensures SubsequenceAt(Search(friends, query, norm), friends, idx)
    ensures forall i :: 0 <= i < |friends| ==> (IsMatch(friends[i], query, norm) <==> i in idx)
    decreases |friends|
  {
    if |friends| == 0 {
      idx := [];
    } else {
      var n := |friends| - 1;
      var init := friends[..n];
      var sub := SearchIsMatchingSubsequence(init, query, norm);
      assert forall i :: 0 <= i < n ==> init[i] == friends[i];
      SubsequenceSnoc(Search(init, query, norm), friends, sub);
      if IsMatch(friends[n], query, norm) {
        idx := sub + [n];
      } else {
        idx := sub;
      }
    }
  }

  /** A subsequence of all but the last element is one of the whole
      sequence, with or without that last element. */
  lemma SubsequenceSnoc<T>(r: seq<T>, s: seq<T>, idx: seq<nat>)
    requires |s| > 0 && SubsequenceAt(r, s[..|s| - 1], idx)
    ensures SubsequenceAt(r, s, idx)
    ensures SubsequenceAt(r + [s[|s| - 1]], s, idx + [|s| - 1])
    ensures |s| - 1 !in idx
  {
  }

  // ---------------------------------------------------------------------
  // Listing and selection

  datatype Output = Println(line: string) | Print(text: string)

  /** `[i] name - availability`. */
  function ListingLine(i: nat, f: Friend): string {
    "[" + NatToDecimal(i) + "] " + f.name + " - " + f.availability
  }

  /** The numbered list, from 1. */
  function Listing(ps: seq<Friend>): (r: seq<Output>)
    ensures |r| == |ps|
    ensures forall i :: 0 <= i < |ps| ==> r[i] == Println(ListingLine(i + 1, ps[i]))
  {
    seq(|ps|, i requires 0 <= i < |ps| => Println(ListingLine(i + 1, ps[i])))
  }

  /** The chosen friend for a typed (already trimmed) selection: a parse
      failure is `ParseIntError`; `0` has no predecessor and a number past the
      list is out of range, both `InvalidIndexError`; otherwise the friend
      listed under that number. */
  function Select(ps: seq<Friend>, input: string): (r: Result<Friend, ChatError>)
    ensures ParseUsize(input).None? ==> r == Failure(ParseIntError)
    ensures ParseUsize(input) == Some(0) ==> r == Failure(InvalidIndexError)
    ensures ParseUsize(input).Some? && ParseUsize(input).value > |ps| ==> r == Failure(InvalidIndexError)
    ensures ParseUsize(input).Some? && 1 <= ParseUsize(input).value <= |ps| ==>
      r == Success(ps[ParseUsize(input).value - 1])
  {
    match ParseUsize(input)
    case None => Failure(ParseIntError)
    case Some(n) =>
      if n == 0 then Failure(InvalidIndexError)
      else if n - 1 < |ps| then Success(ps[n - 1])
      else Failure(InvalidIndexError)
  }

  /** The number printed in front of a friend selects that friend, with or
      without surrounding whitespace on the typed line. */
  lemma ListedNumberSelects(ps: seq<Friend>, i: nat, before: string, after: string)
    requires i < |ps| <= USIZE_MAX
    requires AllWhitespace(before) && AllWhitespace(after)
    ensures Select(ps, Trim(before + NatToDecimal(i + 1) + after)) == Success(ps[i])
  {
    var d := NatToDecimal(i + 1);
    var s := before + d + after;
    TrimOfPadded(before, d, after);
    ParseUsizeOfDecimal(i + 1);
  }

  /** Trimming removes exactly the whitespace around a word that neither
      starts nor ends with whitespace. */
  lemma TrimOfPadded(before: string, word: string, after: string)
    requires AllWhitespace(before) && AllWhitespace(after)
    requires |word| > 0 && !IsWhitespace(word[0]) && !IsWhitespace(word[|word| - 1])
    ensures Trim(before + word + after) == word
  {
    var s := before + word + after;
    var r := Trim(s);
    var i :| TrimmedAt(s, r, i);
    assert s[|before|] == word[0];
    assert s[|before| + |word| - 1] == word[|word| - 1];
    assert i == |before|;
    assert i + |r| == |before| + |word|;
    assert r == s[|before|..|before| + |word|] == word;
  }

  // ---------------------------------------------------------------------
  // One pass of the loop

  /** `"-".repeat(25)`. */
  const SEPARATOR: string := "-------------------------"
  const SEARCH_PROMPT: string := "Search for the name of player to invite and press enter, or press enter without typing anything to accept pending invitations:"
  const NUMBER_PROMPT: string := "Type the number of the player to invite: "
  const FRIENDS_ENDPOINT: string := "/lol-chat/v1/friends"
  const INVITE_ENDPOINT: string := "/lol-lobby/v2/lobby/invitations"
  const RECEIVED_ENDPOINT: string := "/lol-lobby/v2/received-invitations"
  const ACCEPTED_MESSAGE: string := "Successfully accepted pending invitations"
  const NOT_ACCEPTED_MESSAGE: string := "Failed to accept pending invitations"

  datatype ReadOutcome = Line(text: string) | ReadFailed

  /** `stdin.read_line(&mut buf)?`: the next line, or `IoError`; at the end
      of input, an empty line. */
  function ReadLine(stdin: seq<ReadOutcome>): (r: (Result<string, ChatError>, seq<ReadOutcome>))
    ensures |stdin| == 0 ==> r == (Success([]), [])
    ensures |stdin| > 0 ==> (&& r.1 == stdin[1..]
                             && r.0 == (if stdin[0].Line? then Success(stdin[0].text) else Failure(IoError)))
  {
    if |stdin| == 0 then (Success([]), [])
    else match stdin[0]
      case Line(text) => (Success(text), stdin[1..])
      case ReadFailed => (Failure(IoError), stdin[1..])
  }

  /** Reading a typed line leaves the lines after it. */
  lemma ReadFirstLine(text: string, rest: seq<ReadOutcome>)
    ensures ReadLine([Line(text)] + rest) == (Success(text), rest)
  {
    assert ([Line(text)] + rest)[1..] == rest;
  }

  /** The body of the invitation POST: `[{"toSummonerId": id}]`. */
  function InviteBody(id: u64): Json {
    Array([Object(map["toSummonerId" := Num(Int(id))])])
  }

  function InviteRequest(c: Client, f: Friend): Request {
    Post(c, INVITE_ENDPOINT, InviteBody(f.summonerId))
  }

  function AcceptEndpoint(id: string): string {
    "/lol-lobby/v2/received-invitations/" + id + "/accept"
  }

  /** The body of an accept POST: `{"invitationId": id}`. */
  function AcceptBody(id: string): Json {
    Object(map["invitationId" := Str(id)])
  }

  function AcceptRequest(c: Client, id: string): Request {
    Post(c, AcceptEndpoint(id), AcceptBody(id))
  }

  function AcceptMessage(status: int): string {
    if IsSuccess(status) then ACCEPTED_MESSAGE else NOT_ACCEPTED_MESSAGE
  }

  /** What part of a run printed and sent, and how it ended. */
  datatype Effects = Effects(printed: seq<Output>, requests: seq<Request>, result: Result<(), ChatError>)

  /** The accept POSTs, one per id, in order. */
  function AcceptRequests(c: Client, ids: seq<string>): (rs: seq<Request>)
    ensures |rs| == |ids|
    ensures forall i :: 0 <= i < |ids| ==> rs[i] == AcceptRequest(c, ids[i])
  {
    seq(|ids|, i requires 0 <= i < |ids| => AcceptRequest(c, ids[i]))
  }

  /** The accept loop over its POSTs, the first of which is the `k`-th
      request of the run: each is sent in turn and reported by its status
      alone; a transport failure (`?`) ends the loop with that error, and
      nothing after it is sent. */
  function AcceptAll(reqs: seq<Request>, server: Server, k: nat): (e: Effects)
    ensures |e.printed| <= |e.requests| <= |reqs|
    ensures e.requests == reqs[..|e.requests|]
    ensures e.result.Success? ==> |e.requests| == |reqs| && |e.printed| == |reqs|
    ensures e.result.Failure? ==> e.result == Failure(ChatError.Api(RequestError)) && |e.requests| == |e.printed| + 1
    decreases |reqs|
  {
    if |reqs| == 0 then Effects([], [], Success(()))
    else
      match Send(server, k, reqs[0])
      case Failure(err) => Effects([], [reqs[0]], Failure(ChatError.Api(err)))
      case Success(resp) =>
        var rest := AcceptAll(reqs[1..], server, k + 1);
        assert [reqs[0]] + reqs[1..][..|rest.requests|] == reqs[..|rest.requests| + 1];
        Effects([Println(AcceptMessage(resp.status))] + rest.printed, [reqs[0]] + rest.requests, rest.result)
  }

  /** The `i`-th POST of the loop started at request `k` got a reply. */
  ghost predicate Replied(reqs: seq<Request>, server: Server, k: nat, i: nat)
    requires i < |reqs|
  {
    server(k + i, reqs[i]).Reply?
  }

  /** Shifting the start of the loop by one POST shifts the request count by
      one. */
  lemma RepliedTail(reqs: seq<Request>, server: Server, k: nat, i: nat)
    requires 1 <= i < |reqs|
    ensures Replied(reqs, server, k, i) == Replied(reqs[1..], server, k + 1, i - 1)
  {
    assert reqs[1..][i - 1] == reqs[i];
    assert k + 1 + (i - 1) == k + i;
  }

  /** The accept loop succeeds exactly when every POST gets a reply; when it
      fails, the POST after the last printed line is the one that failed. */
  lemma {:induction false} AcceptAllSucceeds(reqs: seq<Request>, server: Server, k: nat)
    ensures var e := AcceptAll(reqs, server, k);
      && (e.result.Success? <==> forall i :: 0 <= i < |reqs| ==> Replied(reqs, server, k, i))
      && (e.result.Failure? ==> !Replied(reqs, server, k, |e.printed|))
    decreases |reqs|
  {
    if |reqs| > 0 && Replied(reqs, server, k, 0) {
      var e := AcceptAll(reqs, server, k);
      var rest := AcceptAll(reqs[1..], server, k + 1);
      AcceptAllSucceeds(reqs[1..], server, k + 1);
      assert e.result == rest.result && |e.printed| == |rest.printed| + 1;
      if e.result.Success? {
        forall i | 1 <= i < |reqs| ensures Replied(reqs, server, k, i) {
          RepliedTail(reqs, server, k, i);
        }
      } else {
        RepliedTail(reqs, server, k, |e.printed|);
        var i :| 0 <= i < |reqs[1..]| && !Replied(reqs[1..], server, k + 1, i);
        RepliedTail(reqs, server, k, i + 1);
      }
    }
  }

  /** The line printed for the `i`-th POST, from its status. */
  function AcceptLine(reqs: seq<Request>, server: Server, k: nat, i: nat): Output
    requires i < |reqs| && Replied(reqs, server, k, i)
  {
    Println(AcceptMessage(server(k + i, reqs[i]).status))
  }

  lemma AcceptLineTail(reqs: seq<Request>, server: Server, k: nat, i: nat)
    requires 1 <= i < |reqs| && Replied(reqs, server, k, i)
    ensures Replied(reqs[1..], server, k + 1, i - 1)
    ensures AcceptLine(reqs, server, k, i) == AcceptLine(reqs[1..], server, k + 1, i - 1)
  {
    assert reqs[1..][i - 1] == reqs[i];
    assert k + 1 + (i - 1) == k + i;
  }

  /** The printed lines are the reply lines of the first POSTs, in order. */
  ghost predicate PrintsReplies(printed: seq<Output>, reqs: seq<Request>, server: Server, k: nat) {
    && |printed| <= |reqs|
    && forall i :: 0 <= i < |printed| ==> Replied(reqs, server, k, i) && printed[i] == AcceptLine(reqs, server, k, i)
  }

  lemma PrintsRepliesCons(printed: seq<Output>, tail: seq<Output>, reqs: seq<Request>, server: Server, k: nat)
    requires |reqs| > 0 && Replied(reqs, server, k, 0)
    requires PrintsReplies(tail, reqs[1..], server, k + 1)
    requires printed == [AcceptLine(reqs, server, k, 0)] + tail
    ensures PrintsReplies(printed, reqs, server, k)
  {
    forall i | 1 <= i < |printed|
      ensures Replied(reqs, server, k, i) && printed[i] == AcceptLine(reqs, server, k, i)
    {
      RepliedTail(reqs, server, k, i);
      AcceptLineTail(reqs, server, k, i);
      assert printed[i] == tail[i - 1];
    }
  }

  /** The accept loop prints one line per reply, chosen by its status alone. */
  lemma {:induction false} AcceptAllPrints(reqs: seq<Request>, server: Server, k: nat)
    ensures PrintsReplies(AcceptAll(reqs, server, k).printed, reqs, server, k)
    decreases |reqs|
  {
    if |reqs| > 0 && Replied(reqs, server, k, 0) {
      var printed := AcceptAll(reqs, server, k).printed;
      var tail := AcceptAll(reqs[1..], server, k + 1).printed;
      AcceptAllPrints(reqs[1..], server, k + 1);
      assert printed == [AcceptLine(reqs, server, k, 0)] + tail;
      PrintsRepliesCons(printed, tail, reqs, server, k);
    }
  }

  /** The accept-all branch: fetch the pending invitations, decode them
      strictly, then accept each. */
  function AcceptBranch(c: Client, server: Server): (e: Effects)
    ensures |e.requests| >= 1 && e.requests[0] == Lcu.Get(c, RECEIVED_ENDPOINT)
    ensures |e.printed| < |e.requests|
    ensures forall i :: 1 <= i < |e.requests| ==> e.requests[i].verb == POST
  {
    var req := Lcu.Get(c, RECEIVED_ENDPOINT);
    match Send(server, 0, req)
    case Failure(err) => Effects([], [req], Failure(ChatError.Api(err)))
    case Success(resp) =>
      match resp.json
      case None => Effects([], [req], Failure(ReqwestError))
      case Some(j) =>
        match DecodeInvites(j)
        case Failure(err) => Effects([], [req], Failure(err))
        case Success(ids) =>
          var acc := AcceptAll(AcceptRequests(c, ids), server, 1);
          Effects(acc.printed, [req] + acc.requests, acc.result)
  }

  /** What one pass printed and sent, the input left over, and how it
      ended. */
  datatype Iteration = Iteration(printed: seq<Output>, requests: seq<Request>, stdin: seq<ReadOutcome>, result: Result<(), ChatError>)

  /** The output of the search branch before the number is read. */
  function SearchShown(ps: seq<Friend>): seq<Output> {
    [Println(""), Println("Possible matches:")] + Listing(ps) + [Print(NUMBER_PROMPT)]
  }

  /** The search branch: list the matches, read a number, invite that friend. */
  function SearchBranch(friends: seq<Friend>, c: Client, query: string, stdin: seq<ReadOutcome>,
                        server: Server, norm: string -> string): (it: Iteration)
    ensures |it.stdin| <= |stdin|
    ensures |it.requests| <= 1
    ensures Search(friends, query, norm) == [] ==> it.requests == [] && it.result.Success? && it.stdin == stdin
  {
    var ps := Search(friends, query, norm);
    if |ps| == 0 then Iteration([Println(""), Println("No matches found")], [], stdin, Success(()))
    else PickAndInvite(ps, c, stdin, server)
  }

  /** The search branch once there are matches. */
  function PickAndInvite(ps: seq<Friend>, c: Client, stdin: seq<ReadOutcome>, server: Server): (it: Iteration)
    ensures |it.stdin| <= |stdin|
    ensures it.stdin == if |stdin| == 0 then [] else stdin[1..]
    ensures SearchShown(ps) <= it.printed && |it.printed| <= |SearchShown(ps)| + 1
    ensures |it.requests| <= 1
  {
    var shown := SearchShown(ps);
    var (line, rest) := ReadLine(stdin);
    match line
    case Failure(err) => Iteration(shown, [], rest, Failure(err))
    case Success(raw) =>
      match Select(ps, Trim(raw))
      case Failure(err) => Iteration(shown, [], rest, Failure(err))
      case Success(f) => InviteFriend(shown, c, f, rest, server)
  }

  /** Send the invitation of the chosen friend and report it. */
  function InviteFriend(shown: seq<Output>, c: Client, f: Friend, rest: seq<ReadOutcome>, server: Server): (it: Iteration)
    ensures it.stdin == rest
    ensures it.requests == [InviteRequest(c, f)]
    ensures it.result.Failure? <==> server(0, InviteRequest(c, f)).TransportError?
    ensures it.result.Failure? ==> it.printed == shown
    ensures it.result.Success? ==> |it.printed| == |shown| + 1 && shown <= it.printed
  {
    var req := InviteRequest(c, f);
    match Send(server, 0, req)
    case Failure(err) => Iteration(shown, [req], rest, Failure(ChatError.Api(err)))
    case Success(resp) =>
      var msg := if IsSuccess(resp.status) then "Invited " + f.name else "Failed to invite " + f.name;
      Iteration(shown + [Println(msg)], [req], rest, Success(()))
  }

  const HEADER: seq<Output> := [Println(SEPARATOR), Println(SEARCH_PROMPT)]

  /** `main_loop`: prompt, read a line, trim it; a non-empty line searches,
      an empty one accepts all pending invitations. */
  function MainLoop(friends: seq<Friend>, c: Client, stdin: seq<ReadOutcome>, server: Server,
                    norm: string -> string): (it: Iteration)
    ensures |stdin| == 0 || |it.stdin| < |stdin|
  {
    var (line, rest) := ReadLine(stdin);
    match line
    case Failure(err) => Iteration(HEADER, [], rest, Failure(err))
    case Success(raw) =>
      var query := Trim(raw);
      if query != [] then
        var it := SearchBranch(friends, c, query, rest, server, norm);
        Iteration(HEADER + it.printed, it.requests, it.stdin, it.result)
      else
        var e := AcceptBranch(c, server);
        Iteration(HEADER + e.printed, e.requests, rest, e.result)
  }

  /** One turn of `main`'s `loop`: a pass of `main_loop`, whose error, if
      any, is printed as `Error: <message>`; the loop then goes on. A turn
      sends what the pass sent, prints at most one line more, and reads at
      least one line of input while there is any. */
  function LoopTurn(friends: seq<Friend>, c: Client, stdin: seq<ReadOutcome>, server: Server,
                    norm: string -> string): (r: (seq<Output>, seq<Request>, seq<ReadOutcome>))
    ensures var it := MainLoop(friends, c, stdin, server, norm);
      && r.1 == it.requests && r.2 == it.stdin
      && (it.result.Success? ==> r.0 == it.printed)
      && (it.result.Failure? ==> r.0 == it.printed + [Println("Error: " + Message(it.result.error))])
    ensures |stdin| == 0 || |r.2| < |stdin|
  {
    var it := MainLoop(friends, c, stdin, server, norm);
    match it.result
    case Success(_) => (it.printed, it.requests, it.stdin)
    case Failure(err) => (it.printed + [Println("Error: " + Message(err))], it.requests, it.stdin)
  }

  // ---------------------------------------------------------------------
  // Properties of one pass

  /** The first line reads successfully and is empty once trimmed (an
      exhausted input reads as an empty line). */
  predicate BlankFirstLine(stdin: seq<ReadOutcome>) {
    |stdin| == 0 || (stdin[0].Line? && AllWhitespace(stdin[0].text))
  }

  /** A blank line always goes to accept-all: the pass does not depend on
      the friend list or on the normalisation, reads one line, and starts by
      fetching the pending invitations. */
  lemma BlankLineAcceptsAll(friends: seq<Friend>, otherFriends: seq<Friend>, c: Client, stdin: seq<ReadOutcome>,
                            server: Server, norm: string -> string, otherNorm: string -> string)
    requires BlankFirstLine(stdin)
    ensures var it := MainLoop(friends, c, stdin, server, norm);
      && it == MainLoop(otherFriends, c, stdin, server, otherNorm)
      && HEADER <= it.printed
      && |it.requests| >= 1 && it.requests[0] == Lcu.Get(c, RECEIVED_ENDPOINT)
      && it.stdin == (if |stdin| == 0 then [] else stdin[1..])
  {
    BlankLineIsAccept(friends, c, stdin, server, norm);
    BlankLineIsAccept(otherFriends, c, stdin, server, otherNorm);
    AcceptBranchFetchesFirst(c, server);
  }

  /** After a blank line the pass is the prompt followed by the accept
      branch. */
  lemma BlankLineIsAccept(friends: seq<Friend>, c: Client, stdin: seq<ReadOutcome>, server: Server,
                          norm: string -> string)
    requires BlankFirstLine(stdin)
    ensures var e := AcceptBranch(c, server);
      MainLoop(friends, c, stdin, server, norm) ==
        Iteration(HEADER + e.printed, e.requests, if |stdin| == 0 then [] else stdin[1..], e.result)
  {
    if |stdin| > 0 {
      TrimEmptyIff(stdin[0].text);
    }
  }

  /** The accept branch starts by fetching the pending invitations. */
  lemma AcceptBranchFetchesFirst(c: Client, server: Server)
    ensures var e := AcceptBranch(c, server);
      |e.requests| >= 1 && e.requests[0] == Lcu.Get(c, RECEIVED_ENDPOINT)
  {
  }


  /** A line with anything but whitespace is the query of the search
      branch, printed after the prompt. */
  lemma NonBlankLineSearches(friends: seq<Friend>, c: Client, stdin: seq<ReadOutcome>, server: Server,
                             norm: string -> string)
    requires |stdin| > 0 && stdin[0].Line? && !AllWhitespace(stdin[0].text)
    ensures var it := SearchBranch(friends, c, Trim(stdin[0].text), stdin[1..], server, norm);
      MainLoop(friends, c, stdin, server, norm) == Iteration(HEADER + it.printed, it.requests, it.stdin, it.result)
  {
    TrimEmptyIff(stdin[0].text);
  }

  /** Once there are matches, at most one request is sent: the invitation
      of one of them. */
  lemma PickSendsAtMostOneInvite(ps: seq<Friend>, c: Client, stdin: seq<ReadOutcome>, server: Server)
    ensures var it := PickAndInvite(ps, c, stdin, server);
      && |it.requests| <= 1
      && (|it.requests| == 1 ==> exists i :: 0 <= i < |ps| && it.requests[0] == InviteRequest(c, ps[i]))
  {
    var it := PickAndInvite(ps, c, stdin, server);
    var line := ReadLine(stdin).0;
    if line.Success? && Select(ps, Trim(line.value)).Success? {
      var i := ParseUsize(Trim(line.value)).value - 1;
      assert 0 <= i < |ps| && it.requests[0] == InviteRequest(c, ps[i]);
    }
  }

  /** A search without matches says so and ends the pass: no request, no
      second prompt, one line read. */
  lemma NoMatchesEndsPass(friends: seq<Friend>, c: Client, stdin: seq<ReadOutcome>, server: Server,
                          norm: string -> string)
    requires |stdin| > 0 && stdin[0].Line? && !AllWhitespace(stdin[0].text)
    requires Search(friends, Trim(stdin[0].text), norm) == []
    ensures MainLoop(friends, c, stdin, server, norm) ==
      Iteration(HEADER + [Println(""), Println("No matches found")], [], stdin[1..], Success(()))
  {
    NonBlankLineSearches(friends, c, stdin, server, norm);
  }

  /** With matches, the branch lists them and prompts for a number, then
      reads one more line: no number is `ParseIntError`, `0` or a number past
      the list is `InvalidIndexError`, both without a request; a listed
      number sends exactly the invitation of that match. */
  lemma SelectionOutcome(ps: seq<Friend>, c: Client, answer: string, rest: seq<ReadOutcome>, server: Server)
    ensures var it := PickAndInvite(ps, c, [Line(answer)] + rest, server);
      var n := ParseUsize(Trim(answer));
      && SearchShown(ps) <= it.printed
      && it.stdin == rest
      && (n.None? ==> it.result == Failure(ParseIntError) && it.requests == [])
      && (n.Some? && (n.value == 0 || n.value > |ps|) ==> it.result == Failure(InvalidIndexError) && it.requests == [])
      && (n.Some? && 1 <= n.value <= |ps| ==> it.requests == [InviteRequest(c, ps[n.value - 1])])
  {
    var n := ParseUsize(Trim(answer));
    if n.Some? && 1 <= n.value <= |ps| {
      PickedFriend(ps, c, answer, rest, server);
    } else {
      BadSelectionStops(ps, c, answer, rest, server);
    }
  }

  /** A refused selection ends the pass right after the listing. */
  lemma BadSelectionStops(ps: seq<Friend>, c: Client, answer: string, rest: seq<ReadOutcome>, server: Server)
    requires Select(ps, Trim(answer)).Failure?
    ensures PickAndInvite(ps, c, [Line(answer)] + rest, server) ==
      Iteration(SearchShown(ps), [], rest, Failure(Select(ps, Trim(answer)).error))
  {
    ReadFirstLine(answer, rest);
  }

  /** The invitation is reported from its status alone; a transport failure
      ends the pass with the API error. */
  lemma InviteReported(ps: seq<Friend>, c: Client, answer: string, rest: seq<ReadOutcome>, server: Server)
    requires ParseUsize(Trim(answer)).Some? && 1 <= ParseUsize(Trim(answer)).value <= |ps|
    ensures var f := ps[ParseUsize(Trim(answer)).value - 1];
      var it := PickAndInvite(ps, c, [Line(answer)] + rest, server);
      var reply := server(0, InviteRequest(c, f));
      && (reply.TransportError? ==>
            it.printed == SearchShown(ps) && it.result == Failure(ChatError.Api(RequestError)))
      && (reply.Reply? && IsSuccess(reply.status) ==>
            it.printed == SearchShown(ps) + [Println("Invited " + f.name)] && it.result == Success(()))
      && (reply.Reply? && !IsSuccess(reply.status) ==>
            it.printed == SearchShown(ps) + [Println("Failed to invite " + f.name)] && it.result == Success(()))
  {
    var f := ps[ParseUsize(Trim(answer)).value - 1];
    PickedFriend(ps, c, answer, rest, server);
    InviteFriendReported(SearchShown(ps), c, f, rest, server);
  }

  /** A listed number leads to the invitation of that match. */
  lemma PickedFriend(ps: seq<Friend>, c: Client, answer: string, rest: seq<ReadOutcome>, server: Server)
    requires ParseUsize(Trim(answer)).Some? && 1 <= ParseUsize(Trim(answer)).value <= |ps|
    ensures PickAndInvite(ps, c, [Line(answer)] + rest, server) ==
      InviteFriend(SearchShown(ps), c, ps[ParseUsize(Trim(answer)).value - 1], rest, server)
  {
    ReadFirstLine(answer, rest);
  }

  lemma InviteFriendReported(shown: seq<Output>, c: Client, f: Friend, rest: seq<ReadOutcome>, server: Server)
    ensures var it := InviteFriend(shown, c, f, rest, server);
      var reply := server(0, InviteRequest(c, f));
      && it.requests == [InviteRequest(c, f)] && it.stdin == rest
      && (reply.TransportError? ==> it.printed == shown && it.result == Failure(ChatError.Api(RequestError)))
      && (reply.Reply? && IsSuccess(reply.status) ==>
            it.printed == shown + [Println("Invited " + f.name)] && it.result == Success(()))
      && (reply.Reply? && !IsSuccess(reply.status) ==>
            it.printed == shown + [Println("Failed to invite " + f.name)] && it.result == Success(()))
  {
  }

  /** After a blank line: a failed fetch or a body that is not JSON or not a
      well-formed invitation list ends the pass before any POST; otherwise
      the accept loop runs on the decoded ids, from the second request on. */
  lemma AcceptAllOutcome(friends: seq<Friend>, c: Client, stdin: seq<ReadOutcome>, server: Server,
                         norm: string -> string)
    requires BlankFirstLine(stdin)
    ensures var it := MainLoop(friends, c, stdin, server, norm);
      var get := Lcu.Get(c, RECEIVED_ENDPOINT);
      var reply := server(0, get);
      && (reply.TransportError? ==>
            it.requests == [get] && it.printed == HEADER && it.result == Failure(ChatError.Api(RequestError)))
      && (reply.Reply? && reply.json.None? ==>
            it.requests == [get] && it.printed == HEADER && it.result == Failure(ReqwestError))
      && (reply.Reply? && reply.json.Some? && DecodeInvites(reply.json.value).Failure? ==>
            && it.requests == [get] && it.printed == HEADER
            && it.result == Failure(DecodeInvites(reply.json.value).error))
      && (reply.Reply? && reply.json.Some? && DecodeInvites(reply.json.value).Success? ==>
            var acc := AcceptAll(AcceptRequests(c, DecodeInvites(reply.json.value).value), server, 1);
            it.requests == [get] + acc.requests && it.printed == HEADER + acc.printed && it.result == acc.result)
  {
    BlankLineIsAccept(friends, c, stdin, server, norm);
    AcceptBranchOutcome(c, server);
  }

  lemma AcceptBranchOutcome(c: Client, server: Server)
    ensures var e := AcceptBranch(c, server);
      var get := Lcu.Get(c, RECEIVED_ENDPOINT);
      var reply := server(0, get);
      && (reply.TransportError? ==> e == Effects([], [get], Failure(ChatError.Api(RequestError))))
      && (reply.Reply? && reply.json.None? ==> e == Effects([], [get], Failure(ReqwestError)))
      && (reply.Reply? && reply.json.Some? && DecodeInvites(reply.json.value).Failure? ==>
            e == Effects([], [get], Failure(DecodeInvites(reply.json.value).error)))
      && (reply.Reply? && reply.json.Some? && DecodeInvites(reply.json.value).Success? ==>
            var acc := AcceptAll(AcceptRequests(c, DecodeInvites(reply.json.value).value), server, 1);
            e == Effects(acc.printed, [get] + acc.requests, acc.result))
  {
  }

  /** No pending invitation: nothing but the fetch is sent, nothing is
      printed after the prompt, and the pass succeeds. */
  lemma NoInvitationsNoPost(friends: seq<Friend>, c: Client, stdin: seq<ReadOutcome>, server: Server,
                            norm: string -> string)
    requires BlankFirstLine(stdin)
    requires server(0, Lcu.Get(c, RECEIVED_ENDPOINT)).Reply?
    requires server(0, Lcu.Get(c, RECEIVED_ENDPOINT)).json == Some(Array([]))
    ensures var it := MainLoop(friends, c, stdin, server, norm);
      it == Iteration(HEADER, [Lcu.Get(c, RECEIVED_ENDPOINT)], if |stdin| == 0 then [] else stdin[1..], Success(()))
  {
    AcceptAllOutcome(friends, c, stdin, server, norm);
    BlankLineAcceptsAll(friends, friends, c, stdin, server, norm, norm);
  }

  /** `N` pending invitations, each of which gets an answer (whatever its
      status): exactly `N` accept POSTs, in order, each reported by its own
      status, and the loop succeeds. */
  lemma EveryInvitationAnswered(c: Client, ids: seq<string>, server: Server, k: nat)
    requires forall i :: 0 <= i < |ids| ==> server(k + i, AcceptRequest(c, ids[i])).Reply?
    ensures var acc := AcceptAll(AcceptRequests(c, ids), server, k);
      && acc.result.Success?
      && acc.requests == AcceptRequests(c, ids)
      && |acc.printed| == |ids|
      && (forall i :: 0 <= i < |ids| ==>
            acc.printed[i] == Println(AcceptMessage(server(k + i, AcceptRequest(c, ids[i])).status)))
  {
    var reqs := AcceptRequests(c, ids);
    forall i | 0 <= i < |ids| ensures Replied(reqs, server, k, i) {
      assert reqs[i] == AcceptRequest(c, ids[i]);
    }
    AcceptAllSucceeds(reqs, server, k);
    var acc := AcceptAll(reqs, server, k);
    assert reqs[..|reqs|] == reqs;
    AcceptAllPrints(reqs, server, k);
    forall i | 0 <= i < |ids|
      ensures acc.printed[i] == Println(AcceptMessage(server(k + i, AcceptRequest(c, ids[i])).status))
    {
      assert acc.printed[i] == AcceptLine(reqs, server, k, i);
      assert reqs[i] == AcceptRequest(c, ids[i]);
    }
  }

  /** `0` and the number after the last match are refused as an invalid
      index, never an out-of-range access. */
  lemma OutOfRangeRefused(ps: seq<Friend>)
    requires |ps| < USIZE_MAX
    ensures Select(ps, "0") == Failure(InvalidIndexError)
    ensures Select(ps, NatToDecimal(|ps| + 1)) == Failure(InvalidIndexError)
  {
    ParseUsizeOfDecimal(0);
    ParseUsizeOfDecimal(|ps| + 1);
  }

  /** A turn with a bad selection reports it after the listing and sends
      nothing; the loop then goes on with the rest of the input. */
  lemma BadSelectionReported(friends: seq<Friend>, c: Client, query: string, answer: string,
                             rest: seq<ReadOutcome>, server: Server, norm: string -> string)
    requires !AllWhitespace(query)
    requires |Search(friends, Trim(query), norm)| > 0
    requires Select(Search(friends, Trim(query), norm), Trim(answer)).Failure?
    ensures var ps := Search(friends, Trim(query), norm);
      var e := Select(ps, Trim(answer)).error;
      LoopTurn(friends, c, [Line(query), Line(answer)] + rest, server, norm) ==
        (HEADER + SearchShown(ps) + [Println("Error: " + Message(e))], [], rest)
  {
    var tail := [Line(answer)] + rest;
    var stdin := [Line(query), Line(answer)] + rest;
    assert stdin == [Line(query)] + tail;
    var ps := Search(friends, Trim(query), norm);
    QueryLineSearches(friends, c, query, tail, server, norm);
    BadSelectionStops(ps, c, answer, rest, server);
    LoopTurnReportsError(friends, c, stdin, server, norm);
  }

  /** A typed query with matches goes on to the pick. */
  lemma QueryLineSearches(friends: seq<Friend>, c: Client, query: string, tail: seq<ReadOutcome>, server: Server,
                          norm: string -> string)
    requires !AllWhitespace(query)
    requires |Search(friends, Trim(query), norm)| > 0
    ensures var it := PickAndInvite(Search(friends, Trim(query), norm), c, tail, server);
      MainLoop(friends, c, [Line(query)] + tail, server, norm) == Iteration(HEADER + it.printed, it.requests, it.stdin, it.result)
  {
    ReadFirstLine(query, tail);
    TrimEmptyIff(query);
  }


  /** A failed pass is followed by its `Error:` line. */
  lemma LoopTurnReportsError(friends: seq<Friend>, c: Client, stdin: seq<ReadOutcome>, server: Server,
                             norm: string -> string)
    ensures var it := MainLoop(friends, c, stdin, server, norm);
      it.result.Failure? ==>
        LoopTurn(friends, c, stdin, server, norm) ==
          (it.printed + [Println("Error: " + Message(it.result.error))], it.requests, it.stdin)
  {
  }


  // ---------------------------------------------------------------------
  // Startup

  datatype StartOutcome =
    | Ready(client: Client, friends: seq<Friend>)
    | Exited(error: ChatError)
    | Panicked(message: string)

  datatype Startup = Startup(printed: seq<Output>, requests: seq<Request>, stdin: seq<ReadOutcome>, outcome: StartOutcome)

  const EXPLICIT_PANIC: string := "explicit panic"

  /** `main` up to the loop: build the client (when the client process is
      not running, say so, wait for a line and panic), then fetch and decode
      the friend list; any error there ends the program. */
  function Start(os: Os, procs: seq<Process>, stdin: seq<ReadOutcome>, server: Server): (st: Startup)
    ensures st.requests == [] <==> NewLcu(os, procs).Failure?
    ensures st.outcome.Ready? ==> NewLcu(os, procs).Success? && st.outcome.client == NewLcu(os, procs).value
  {
    StartWith(NewLcu(os, procs), stdin, server)
  }

  /** What `main` does once `Lcu::new` has returned `lcu`. */
  function StartWith(lcu: Result<Client, AuthFailure>, stdin: seq<ReadOutcome>, server: Server): (st: Startup)
    ensures st.requests == [] <==> lcu.Failure?
    ensures lcu.Success? ==> st.requests == [Lcu.Get(lcu.value, FRIENDS_ENDPOINT)] && st.printed == [] && st.stdin == stdin
    ensures st.outcome.Ready? ==> lcu.Success? && st.outcome.client == lcu.value
  {
    match lcu
    case Failure(Panic(msg)) => Startup([], [], stdin, Panicked(msg))
    case Failure(Api(_)) =>
      var shown := [Println("League process is not running"), Println("Press enter to continue...")];
      var (line, rest) := ReadLine(stdin);
      if line.Failure? then Startup(shown, [], rest, Exited(line.error))
      else Startup(shown, [], rest, Panicked(EXPLICIT_PANIC))
    case Success(c) =>
      var req := Lcu.Get(c, FRIENDS_ENDPOINT);
      match Send(server, 0, req)
      case Failure(err) => Startup([], [req], stdin, Exited(ChatError.Api(err)))
      case Success(resp) =>
        match resp.json
        case None => Startup([], [req], stdin, Exited(ReqwestError))
        case Some(j) =>
          match DecodeFriends(j)
          case Failure(err) => Startup([], [req], stdin, Exited(err))
          case Success(friends) => Startup([], [req], stdin, Ready(c, friends))
  }

  /** No client process: the two notices are printed, one line is waited
      for, nothing is sent, and the program panics (or stops with the read
      error). */
  lemma StartNotRunning(os: Os, procs: seq<Process>, stdin: seq<ReadOutcome>, server: Server)
    requires forall i :: 0 <= i < |procs| ==> procs[i].name != ProcName(os)
    ensures var st := Start(os, procs, stdin, server);
      && st.printed == [Println("League process is not running"), Println("Press enter to continue...")]
      && st.requests == []
      && st.stdin == (if |stdin| == 0 then [] else stdin[1..])
      && st.outcome == (if |stdin| > 0 && stdin[0].ReadFailed? then Exited(IoError) else Panicked(EXPLICIT_PANIC))
  {
    assert NewLcu(os, procs) == Failure(AuthFailure.Api(NotRunning));
    StartWithNotRunning(stdin, server);
  }

  lemma StartWithNotRunning(stdin: seq<ReadOutcome>, server: Server)
    ensures var st := StartWith(Failure(AuthFailure.Api(NotRunning)), stdin, server);
      && st.printed == [Println("League process is not running"), Println("Press enter to continue...")]
      && st.requests == []
      && st.stdin == (if |stdin| == 0 then [] else stdin[1..])
      && st.outcome == (if |stdin| > 0 && stdin[0].ReadFailed? then Exited(IoError) else Panicked(EXPLICIT_PANIC))
  {
  }

  /** The loop is entered exactly when the client is built, the friend list
      is fetched as JSON and that JSON is a well-formed friend list; it then
      runs with that client and that list, after one request and no output. */
  lemma StartReady(os: Os, procs: seq<Process>, stdin: seq<ReadOutcome>, server: Server)
    ensures var st := Start(os, procs, stdin, server);
      st.outcome.Ready? <==> (&& NewLcu(os, procs).Success?
                              && var reply := server(0, Lcu.Get(NewLcu(os, procs).value, FRIENDS_ENDPOINT));
                                 reply.Reply? && reply.json.Some? && DecodeFriends(reply.json.value).Success?)
    ensures var st := Start(os, procs, stdin, server);
      st.outcome.Ready? ==> (&& var c := NewLcu(os, procs).value;
                                var reply := server(0, Lcu.Get(c, FRIENDS_ENDPOINT));
                                && st.outcome.client == c
                                && st.outcome.friends == DecodeFriends(reply.json.value).value
                                && st.requests == [Lcu.Get(c, FRIENDS_ENDPOINT)]
                                && st.printed == []
                                && st.stdin == stdin)
  {
    StartWithReady(NewLcu(os, procs), stdin, server);
  }

  lemma StartWithReady(lcu: Result<Client, AuthFailure>, stdin: seq<ReadOutcome>, server: Server)
    ensures var st := StartWith(lcu, stdin, server);
      st.outcome.Ready? <==> (&& lcu.Success?
                              && var reply := server(0, Lcu.Get(lcu.value, FRIENDS_ENDPOINT));
                                 reply.Reply? && reply.json.Some? && DecodeFriends(reply.json.value).Success?)
    ensures var st := StartWith(lcu, stdin, server);
      st.outcome.Ready? ==> (&& var c := lcu.value;
                                var reply := server(0, Lcu.Get(c, FRIENDS_ENDPOINT));
                                && st.outcome.client == c
                                && st.outcome.friends == DecodeFriends(reply.json.value).value
                                && st.requests == [Lcu.Get(c, FRIENDS_ENDPOINT)]
                                && st.printed == []
                                && st.stdin == stdin)
  {
  }

  /** A client found with its arguments missing panics with the message of
      the missing argument, printing nothing and sending nothing. */
  lemma StartPanics(os: Os, procs: seq<Process>, stdin: seq<ReadOutcome>, server: Server)
    ensures NewLcu(os, procs).Failure? && NewLcu(os, procs).error.Panic? ==>
      Start(os, procs, stdin, server) == Startup([], [], stdin, Panicked(NewLcu(os, procs).error.message))
  {
  }

  /** A malformed friend list ends the program with its decoding error,
      after the one request and without output. */
  lemma StartBadFriends(os: Os, procs: seq<Process>, stdin: seq<ReadOutcome>, server: Server)
    ensures NewLcu(os, procs).Success? ==>
      var c := NewLcu(os, procs).value;
      var reply := server(0, Lcu.Get(c, FRIENDS_ENDPOINT));
      reply.Reply? && reply.json.Some? && DecodeFriends(reply.json.value).Failure? ==>
        Start(os, procs, stdin, server) ==
          Startup([], [Lcu.Get(c, FRIENDS_ENDPOINT)], stdin, Exited(DecodeFriends(reply.json.value).error))
  {
    if NewLcu(os, procs).Success? {
      StartWithBadFriends(NewLcu(os, procs).value, stdin, server);
    }
  }

  lemma StartWithBadFriends(c: Client, stdin: seq<ReadOutcome>, server: Server)
    ensures var reply := server(0, Lcu.Get(c, FRIENDS_ENDPOINT));
      reply.Reply? && reply.json.Some? && DecodeFriends(reply.json.value).Failure? ==>
        StartWith(Success(c), stdin, server) ==
          Startup([], [Lcu.Get(c, FRIENDS_ENDPOINT)], stdin, Exited(DecodeFriends(reply.json.value).error))
  {
  }

  // ---------------------------------------------------------------------
  // A worked pass

  /** Reading the first of two typed lines. */
  lemma FirstOfTwoLines(a: string, b: string, rest: seq<ReadOutcome>)
    ensures ([Line(a), Line(b)] + rest)[0] == Line(a)
    ensures ([Line(a), Line(b)] + rest)[1..] == [Line(b)] + rest
  {
  }

  const ANA_ANNA: seq<Friend> := [Friend("Ana", 1, "Online"), Friend("Anna", 2, "Away")]

  /** Searching one more friend appends it when it matches. */
  lemma SearchAppendOne(fs: seq<Friend>, f: Friend, query: string, norm: string -> string)
    ensures Search(fs + [f], query, norm) == Search(fs, query, norm) + (if IsMatch(f, query, norm) then [f] else [])
  {
    assert (fs + [f])[..|fs|] == fs;
  }

  /** `an` occurs in both `ana` and `anna`, so both friends match. */
  lemma AnaAnnaBothMatch(norm: string -> string)
    requires norm("Ana") == "ana" && norm("Anna") == "anna" && norm("an") == "an"
    ensures Search(ANA_ANNA, "an", norm) == ANA_ANNA
  {
    var a, b := ANA_ANNA[0], ANA_ANNA[1];
    assert IsMatch(a, "an", norm) by { assert "an" <= "ana"; }
    assert IsMatch(b, "an", norm) by { assert "an" <= "anna"; }
    SearchAppendOne([], a, "an", norm);
    assert [] + [a] == [a];
    SearchAppendOne([a], b, "an", norm);
    assert [a] + [b] == ANA_ANNA;
  }

  lemma AnaAnnaListing()
    ensures SearchShown(ANA_ANNA) == [Println(""), Println("Possible matches:"), Println("[1] Ana - Online"),
                                      Println("[2] Anna - Away"), Print(NUMBER_PROMPT)]
  {
    assert NatToDecimal(1) == "1" && NatToDecimal(2) == "2";
    assert ListingLine(1, ANA_ANNA[0]) == "[1] Ana - Online";
    assert ListingLine(2, ANA_ANNA[1]) == "[2] Anna - Away";
    assert Listing(ANA_ANNA) == [Println("[1] Ana - Online"), Println("[2] Anna - Away")];
  }

  /** The query `an` typed with its newline lists both friends. */
  lemma AnaAnnaSearched(c: Client, server: Server, norm: string -> string, rest: seq<ReadOutcome>)
    requires norm("Ana") == "ana" && norm("Anna") == "anna" && norm("an") == "an"
    ensures var it := PickAndInvite(ANA_ANNA, c, [Line("2\n")] + rest, server);
      MainLoop(ANA_ANNA, c, [Line("an\n"), Line("2\n")] + rest, server, norm) ==
        Iteration(HEADER + it.printed, it.requests, it.stdin, it.result)
  {
    var stdin := [Line("an\n"), Line("2\n")] + rest;
    FirstOfTwoLines("an\n", "2\n", rest);
    TrimOfPadded([], "an", "\n");
    assert [] + "an" + "\n" == "an\n";
    assert !AllWhitespace("an\n") by { assert !IsWhitespace("an\n"[0]); }
    AnaAnnaBothMatch(norm);
    NonBlankLineSearches(ANA_ANNA, c, stdin, server, norm);
  }

  /** The answer `2` typed with its newline invites summoner 2. */
  lemma AnaAnnaPicked(c: Client, server: Server, rest: seq<ReadOutcome>)
    ensures var it := PickAndInvite(ANA_ANNA, c, [Line("2\n")] + rest, server);
      && SearchShown(ANA_ANNA) <= it.printed
      && it.requests == [Post(c, INVITE_ENDPOINT, Array([Object(map["toSummonerId" := Num(Int(2))])]))]
  {
    TrimOfPadded([], "2", "\n");
    assert [] + "2" + "\n" == "2\n";
    ParseUsizeOfDecimal(2);
    SelectionOutcome(ANA_ANNA, c, "2\n", rest, server);
  }

  /** Two friends, `Ana` and `Anna`, a normalisation that lowercases these
      names, the query `an` and the answer `2` (each typed with its newline):
      both are listed, as `[1] Ana - Online` and `[2] Anna - Away`, and the
      one request is the invitation of summoner 2. */
  lemma AnaAnnaScenario(c: Client, server: Server, norm: string -> string, rest: seq<ReadOutcome>)
    requires norm("Ana") == "ana" && norm("Anna") == "anna" && norm("an") == "an"
    ensures var it := MainLoop(ANA_ANNA, c, [Line("an\n"), Line("2\n")] + rest, server, norm);
      && HEADER + [Println(""), Println("Possible matches:"), Println("[1] Ana - Online"),
                   Println("[2] Anna - Away"), Print(NUMBER_PROMPT)] <= it.printed
      && it.requests == [Post(c, INVITE_ENDPOINT, Array([Object(map["toSummonerId" := Num(Int(2))])]))]
  {
    AnaAnnaSearched(c, server, norm, rest);
    AnaAnnaPicked(c, server, rest);
    AnaAnnaListing();
  }
}
