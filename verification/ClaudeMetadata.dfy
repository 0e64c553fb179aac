/**
 Structural metadata of a Claude Code request and response: message counts, tool use, thinking, plan
 mode and stop reason, from either response format. JSON decoding and the system-prompt hash are
 arbitrary functions.
 */
module ClaudeMetadata {
  import opened Sse
  import opened Wrappers

  datatype Block = Block(kind: string, name: string)

  datatype Message = Message(stopReason: string, content: seq<Block>)

  datatype Request = Request(system: string, roles: seq<string>, tools: seq<string>)

  datatype Metadata = Metadata(
    messageCount: nat, userMessageCount: nat, assistantMessageCount: nat,
    toolNames: seq<string>, toolUseCount: nat, hasThinking: bool, isPlanMode: bool,
    stopReason: string, systemPromptHash: string)

  datatype Json = Json(
    request: string -> Option<Request>, response: string -> Option<Message>,
    block: string -> Option<Block>, stopReason: string -> Option<string>, hash: string -> string)

  datatype ParseError = BadRequest | BadResponse

  // ---- The streamed message ---------------------------------------------------------------------

  /** The readable content blocks, in order. */
  function Blocks(events: seq<Event>, json: Json): seq<Block> {
    if events == [] then []
    else
      var n := |events| - 1;
      var before := Blocks(events[..n], json);
      if events[n].name == "content_block_start" && json.block(events[n].data).Some?
      then before + [json.block(events[n].data).value] else before
  }

  /** An empty stop reason does not replace an earlier one. */
  function StopReason(data: string, json: Json): Option<string> {
    if json.stopReason(data) == Some("") then None else json.stopReason(data)
  }

  /** What one event delivers: a block if it is a readable `content_block_start`. */
  lemma BlockOf(e: Event, json: Json)
    ensures e.name == "content_block_start" && json.block(e.data).Some? ==>
      Blocks([e], json) == [json.block(e.data).value]
    ensures e.name != "content_block_start" || json.block(e.data).None? ==> Blocks([e], json) == []
  {
    assert [e][..0] == [];
  }

  /** The blocks of the events are put one behind the other, and no event takes one away. */
  lemma {:induction false} BlocksAreCollected(events: seq<Event>, more: seq<Event>, json: Json)
    ensures Blocks(events + more, json) == Blocks(events, json) + Blocks(more, json)
    decreases |more|
  {
    if more == [] {
      assert events + more == events;
    } else {
      var n := |more| - 1;
      BlocksAreCollected(events, more[..n], json);
      assert (events + more)[..|events| + n] == events + more[..n];
    }
  }

  function Assembled(events: seq<Event>, json: Json): Message {
    var stop := Last(events, "message_delta", data => StopReason(data, json));
    Message(if stop.Some? then stop.value else "", Blocks(events, json))
  }

  method ParseSseResponse(body: string, json: Json) returns (msg: Message)
    ensures msg == Assembled(EventsOf(body), json)
  {
    var stop := "";
    var content := [];
    var events := ScanEvents(body);
    for i := 0 to |events|
      invariant Assembled(events[..i], json) == Message(stop, content)
    {
      assert events[..i + 1][..i] == events[..i];
      var e := events[i];
      match e.name {
        case "content_block_start" =>
          var block := json.block(e.data);
          if block.Some? {
            content := content + [block.value];
          }
        case "message_delta" =>
          var reason := json.stopReason(e.data);
          if reason.Some? && reason.value != "" {
            stop := reason.value;
          }
        case _ =>
      }
    }
    assert events[..|events|] == events;
    return Message(stop, content);
  }

  /** The stop reason is the last readable one that is not empty, or empty if there is none. */
  lemma StopReasonIsLastNonEmpty(events: seq<Event>, json: Json, i: nat)
    requires i <= |events| && forall j :: i < j < |events| ==> !Stops(events[j], json)
    ensures i < |events| && Stops(events[i], json) ==>
      Assembled(events, json).stopReason == json.stopReason(events[i].data).value
    ensures i < |events| && (forall j :: 0 <= j < |events| ==> !Stops(events[j], json)) ==>
      Assembled(events, json).stopReason == ""
  {
    var decode := data => StopReason(data, json);
    if i < |events| && Stops(events[i], json) {
      LastIs(events, "message_delta", decode, i);
    }
    LastIsLastReadable(events, "message_delta", decode);
  }

  predicate Stops(e: Event, json: Json) {
    e.name == "message_delta" && json.stopReason(e.data).Some? && json.stopReason(e.data).value != ""
  }

  // ---- Sorted tool names ------------------------------------------------------------------------

  /** Byte-wise lexicographic order, as `sort.Strings` uses it. */
  predicate Less(a: string, b: string) {
    b != "" && (a == "" || a[0] < b[0] || (a[0] == b[0] && Less(a[1..], b[1..])))
  }

  lemma {:induction false} LessTransitive(a: string, b: string, c: string)
    requires Less(a, b) && Less(b, c)
    ensures Less(a, c)
    decreases |a|
  {
    if a == "" || a[0] != b[0] || b[0] != c[0] {
    } else {
      LessTransitive(a[1..], b[1..], c[1..]);
    }
  }

  lemma {:induction false} LessTotal(a: string, b: string)
    ensures Less(a, b) || a == b || Less(b, a)
    ensures !(Less(a, b) && Less(b, a)) && !Less(a, a)
    decreases |a|
  {
    if a == "" {
    } else if b == "" {
      LessTotal(a[1..], a[1..]);
    } else {
      LessTotal(a[1..], b[1..]);
      LessTotal(a[1..], a[1..]);
      assert a == [a[0]] + a[1..] && b == [b[0]] + b[1..];
    }
  }

  ghost predicate StrictlySorted(names: seq<string>) {
    forall i, j :: 0 <= i < j < |names| ==> Less(names[i], names[j])
  }

  /** A set of names has only one strictly sorted listing, so the order of map iteration cannot show. */
  lemma {:induction false} SortedListingIsUnique(a: seq<string>, b: seq<string>)
    requires StrictlySorted(a) && StrictlySorted(b) && (forall x :: x in a <==> x in b)
    ensures a == b
    decreases |a|
  {
    if a == [] {
      if b != [] {
        HeadIsIn(b);
      }
    } else {
      HeadIsIn(a);
      HeadIsIn(b);
      SameHead(a, b);
      forall x
        ensures x in a[1..] <==> x in b[1..]
      {
        TailMembers(a, x);
        TailMembers(b, x);
      }
      SortedListingIsUnique(a[1..], b[1..]);
      assert a == [a[0]] + a[1..] && b == [b[0]] + b[1..];
    }
  }

  lemma HeadIsIn(a: seq<string>)
    ensures a != [] ==> a[0] in a
  {
  }

  lemma SameHead(a: seq<string>, b: seq<string>)
    requires StrictlySorted(a) && StrictlySorted(b) && a != [] && b != [] && a[0] in b && b[0] in a
    ensures a[0] == b[0]
  {
    LessTotal(a[0], b[0]);
    var i :| 0 <= i < |b| && b[i] == a[0];
    var j :| 0 <= j < |a| && a[j] == b[0];
  }

  lemma TailMembers(a: seq<string>, x: string)
    requires StrictlySorted(a) && a != []
    ensures x in a[1..] <==> x in a && x != a[0]
  {
    forall i | 1 <= i < |a|
      ensures a[i] != a[0]
    {
      LessTotal(a[0], a[i]);
    }
    if x in a && x != a[0] {
      var i :| 0 <= i < |a| && a[i] == x;
      assert a[1..][i - 1] == x;
    }
  }

  /** Ranges over the map of names in any order and sorts, one insertion at a time. */
  method SortedNames(names: set<string>) returns (sorted: seq<string>)
    ensures StrictlySorted(sorted) && forall x :: x in sorted <==> x in names
  {
    sorted := [];
    var rest := names;
    while rest != {}
      invariant rest <= names && StrictlySorted(sorted)
      invariant forall x :: x in sorted <==> x in names && x !in rest
      decreases rest
    {
      var name :| name in rest;
      rest := rest - {name};
      sorted := InsertSorted(sorted, name);
    }
  }

  method InsertSorted(sorted: seq<string>, name: string) returns (r: seq<string>)
    requires StrictlySorted(sorted) && name !in sorted
    ensures StrictlySorted(r) && forall x :: x in r <==> x in sorted || x == name
  {
    var k := 0;
    while k < |sorted| && Less(sorted[k], name)
      invariant 0 <= k <= |sorted| && forall i :: 0 <= i < k ==> Less(sorted[i], name)
    {
      k := k + 1;
    }
    r := sorted[..k] + [name] + sorted[k..];
    forall j | k <= j < |sorted|
      ensures Less(name, sorted[j])
    {
      LessTotal(sorted[k], name);
      assert sorted[k] in sorted;
      if k < j {
        LessTransitive(name, sorted[k], sorted[j]);
      }
    }
    assert sorted == sorted[..k] + sorted[k..];
  }

  // ---- Metadata ---------------------------------------------------------------------------------

  predicate IsReadTool(name: string) {
    name == "Read" || name == "Grep" || name == "Glob"
  }

  predicate IsWriteTool(name: string) {
    name == "Write" || name == "Edit"
  }

  method DetectPlanMode(tools: seq<string>) returns (plan: bool)
    ensures plan <==> (exists t <- tools :: IsReadTool(t)) && !(exists t <- tools :: IsWriteTool(t))
    ensures plan <==>
      && ("Read" in tools || "Grep" in tools || "Glob" in tools)
      && "Write" !in tools && "Edit" !in tools
  {
    if |tools| == 0 {
      return false;
    }
    var hasRead, hasWrite := false, false;
    for i := 0 to |tools|
      invariant hasRead <==> exists t <- tools[..i] :: IsReadTool(t)
      invariant hasWrite <==> exists t <- tools[..i] :: IsWriteTool(t)
    {
      assert tools[..i + 1] == tools[..i] + [tools[i]];
      if IsReadTool(tools[i]) {
        hasRead := true;
      }
      if IsWriteTool(tools[i]) {
        hasWrite := true;
      }
    }
    assert tools[..|tools|] == tools;
    return hasRead && !hasWrite;
  }

  /** The positions of the tool uses. */
  function ToolUses(content: seq<Block>): set<nat> {
    set i: nat | i < |content| && content[i].kind == "tool_use"
  }

  lemma ToolUsesSnoc(content: seq<Block>, n: nat)
    requires n < |content|
    ensures |ToolUses(content[..n + 1])| == |ToolUses(content[..n])| + if content[n].kind == "tool_use" then 1 else 0
  {
    var before := ToolUses(content[..n]);
    assert ToolUses(content[..n + 1]) == if content[n].kind == "tool_use" then before + {n} else before;
  }

  /** `m` is the metadata of a request with the given answer. */
  ghost predicate IsMetadata(m: Metadata, req: Request, msg: Message, json: Json) {
    && m.messageCount == |req.roles|
    && m.userMessageCount == multiset(req.roles)["user"]
    && m.assistantMessageCount == multiset(req.roles)["assistant"]
    && m.systemPromptHash == (if req.system != "" && req.system != "null" then json.hash(req.system) else "")
    && m.isPlanMode == (("Read" in req.tools || "Grep" in req.tools || "Glob" in req.tools)
                        && "Write" !in req.tools && "Edit" !in req.tools)
    && m.stopReason == msg.stopReason
    && m.toolUseCount == |set i: nat | i < |msg.content| && msg.content[i].kind == "tool_use"|
    && m.hasThinking == (exists b <- msg.content :: b.kind == "thinking")
    && StrictlySorted(m.toolNames)
    && (forall x :: x in m.toolNames <==> x != "" && exists b <- msg.content :: b.kind == "tool_use" && b.name == x)
  }

  /** The conditions of `IsMetadata` leave no choice. */
  lemma MetadataIsUnique(a: Metadata, b: Metadata, req: Request, msg: Message, json: Json)
    requires IsMetadata(a, req, msg, json) && IsMetadata(b, req, msg, json)
    ensures a == b
  {
    SortedListingIsUnique(a.toolNames, b.toolNames);
  }

  /** What the response side of `ParseRequestResponse` reads a body as. */
  function MessageOf(body: string, json: Json): Option<Message> {
    if IsSse(body) then Some(Assembled(EventsOf(body), json)) else json.response(body)
  }

  method CountRoles(roles: seq<string>) returns (users: nat, assistants: nat)
    ensures users == multiset(roles)["user"] && assistants == multiset(roles)["assistant"]
  {
    users, assistants := 0, 0;
    for i := 0 to |roles|
      invariant users == multiset(roles[..i])["user"] && assistants == multiset(roles[..i])["assistant"]
    {
      assert roles[..i + 1] == roles[..i] + [roles[i]];
      match roles[i] {
        case "user" => users := users + 1;
        case "assistant" => assistants := assistants + 1;
        case _ =>
      }
    }
    assert roles[..|roles|] == roles;
  }

  method ReadBlocks(content: seq<Block>) returns (uses: nat, thinking: bool, names: set<string>)
    ensures uses == |set i: nat | i < |content| && content[i].kind == "tool_use"|
    ensures uses == |ToolUses(content)| && thinking == (exists b <- content :: b.kind == "thinking")
    ensures forall x :: x in names <==> x != "" && exists b <- content :: b.kind == "tool_use" && b.name == x
  {
    uses, thinking, names := 0, false, {};
    for i := 0 to |content|
      invariant uses == |ToolUses(content[..i])| && thinking == (exists b <- content[..i] :: b.kind == "thinking")
      invariant forall x :: x in names <==> x != "" && exists b <- content[..i] :: b.kind == "tool_use" && b.name == x
    {
      assert content[..i + 1] == content[..i] + [content[i]];
      ToolUsesSnoc(content, i);
      match content[i].kind {
        case "thinking" => thinking := true;
        case "tool_use" =>
          uses := uses + 1;
          if content[i].name != "" {
            names := names + {content[i].name};
          }
        case _ =>
      }
    }
    assert content[..|content|] == content;
  }

  method ParseRequestResponse(reqBody: string, respBody: string, json: Json) returns (r: Result<Metadata, ParseError>)
    ensures json.request(reqBody).None? ==> r == Err(BadRequest)
    ensures json.request(reqBody).Some? && MessageOf(respBody, json).None? ==> r == Err(BadResponse)
    ensures json.request(reqBody).Some? && MessageOf(respBody, json).Some? ==>
      r.Ok? && IsMetadata(r.value, json.request(reqBody).value, MessageOf(respBody, json).value, json)
  {
    if json.request(reqBody).None? {
      return Err(BadRequest);
    }
    var req := json.request(reqBody).value;
    var msg;
    if IsSse(respBody) {
      msg := ParseSseResponse(respBody, json);
    } else if json.response(respBody).None? {
      return Err(BadResponse);
    } else {
      msg := json.response(respBody).value;
    }
    var users, assistants := CountRoles(req.roles);
    var hash := if req.system != "" && req.system != "null" then json.hash(req.system) else "";
    var plan := DetectPlanMode(req.tools);
    var uses, thinking, names := ReadBlocks(msg.content);
    var sorted := SortedNames(names);
    return Ok(Metadata(|req.roles|, users, assistants, sorted, uses, thinking, plan, msg.stopReason, hash));
  }

  /**
   Both response formats give the same metadata: of a printable stream and a JSON document that decodes
   to the message the stream amounts to, any two results of `ParseRequestResponse` are equal.
   */
  lemma BothFormatsGiveTheSameMetadata(events: seq<Event>, document: string, req: Request, json: Json, a: Metadata,
                                       b: Metadata)
    requires events != [] && forall e <- events :: Printable(e)
    requires !IsSse(document) && json.response(document) == Some(Assembled(events, json))
    requires IsMetadata(a, req, MessageOf(Print(events), json).value, json)
    requires IsMetadata(b, req, MessageOf(document, json).value, json)
    ensures a == b
  {
    PrintedIsSse(events);
    ParseInvertsPrint(events, "");
    MetadataIsUnique(a, b, req, Assembled(events, json), json);
  }

  /** The events by which a message is streamed. */
  function Stream(msg: Message, printBlock: Block -> string, printStop: string -> string): seq<Event> {
    seq(|msg.content|, i requires 0 <= i < |msg.content| => Event("content_block_start", printBlock(msg.content[i])))
    + [Event("message_delta", printStop(msg.stopReason))]
  }

  /** Streaming a message and assembling it again gives the message back. */
  lemma AssembleInvertsStream(msg: Message, printBlock: Block -> string, printStop: string -> string, json: Json)
    requires forall b :: json.block(printBlock(b)) == Some(b)
    requires forall s :: json.stopReason(printStop(s)) == Some(s)
    ensures Assembled(Stream(msg, printBlock, printStop), json) == msg
  {
    var blocks := seq(|msg.content|, i requires 0 <= i < |msg.content| =>
      Event("content_block_start", printBlock(msg.content[i])));
    BlocksOfStream(msg.content, blocks, printBlock, json);
    var all := Stream(msg, printBlock, printStop);
    assert all == blocks + [Event("message_delta", printStop(msg.stopReason))] && all[..|blocks|] == blocks;
  }

  lemma {:induction false} BlocksOfStream(content: seq<Block>, events: seq<Event>, printBlock: Block -> string,
                                          json: Json)
    requires forall b :: json.block(printBlock(b)) == Some(b)
    requires |events| == |content| && forall i :: 0 <= i < |content| ==>
      events[i] == Event("content_block_start", printBlock(content[i]))
    ensures Blocks(events, json) == content
    ensures Last(events, "message_delta", data => StopReason(data, json)) == None
    decreases |events|
  {
    if content == [] {
    } else {
      var n := |content| - 1;
      BlocksOfStream(content[..n], events[..n], printBlock, json);
    }
  }
}
