/** One request on one stream: dispatchStream of framework/app.go and the response half of
    framework/context.go.  Handlers and after-hooks are arbitrary sequences of the operations a
    context offers; which frame sequences can reach the wire is the question. */
module Dispatch {
  import opened Options
  import opened Frames
  import opened Messages
  import opened StreamWriters

  /** The data argument of Context.Error, marshalled or not. */
  datatype ErrorData = NoData | Marshalled(bytes: Bytes) | Unmarshallable

  datatype Action =
    | SetHeader(key: string, value: string)
    | Send(status: int, headers: map<string, string>, body: Bytes)
    | SendUnmarshallable
    | SendError(code: int, message: string, data: ErrorData)
    | OpenStream(status: int, headers: map<string, string>)
    | OnStream(op: Op)

  /** What the handler chain does with a request: its actions and the error it returns, if any. */
  datatype Program = Program(actions: seq<Action>, failure: Option<string>)

  datatype Env = Env(mp: MsgPack, id: string, capacity: int)

  /** The context: the sent flag, the pending response headers, the stream writer if one was
      obtained, and the messages handed to the transport so far. */
  datatype Ctx = Ctx(sent: bool, pending: map<string, string>, writer: Option<Writer>, log: seq<Message>)

  const NEW := Ctx(false, map[], None, [])

  function ErrorBytes(data: ErrorData): Bytes { if data.Marshalled? then data.bytes else [] }

  /** The response a claiming action sends, given the pending headers. */
  function Reply(env: Env, pending: map<string, string>, a: Action): seq<Message>
  {
    match a
    case Send(status, headers, body) => Offered(env.mp, Response(env.id, status, pending + headers, body, false))
    case SendError(code, message, data) =>
      if data.Unmarshallable? then [] else Offered(env.mp, ErrorFrame(env.id, code, message, ErrorBytes(data)))
    case OpenStream(status, headers) => Offered(env.mp, Response(env.id, status, headers, [], true))
    case _ => []
  }

  /** The actions that set the sent flag. */
  predicate Claims(a: Action) { a.Send? || a.SendError? || a.OpenStream? }

  // ---------------------------------------------------------------- what a reply says

  /** Every header of either map, the response's own taking precedence. */
  predicate Merged(h: map<string, string>, pending: map<string, string>, own: map<string, string>)
  {
    h.Keys == pending.Keys + own.Keys && forall k <- h :: h[k] == if k in own then own[k] else pending[k]
  }

  /** m is what a claiming action says, given the pending headers. */
  predicate Says(env: Env, pending: map<string, string>, a: Action, m: Message)
  {
    match a
    case Send(status, headers, body) =>
      && m.Response? && m.id == env.id && m.status == status && m.body == body && !m.stream
      && Merged(m.headers, pending, headers)
    case SendError(code, message, data) =>
      && m.ErrorFrame? && m.id == env.id && m.code == code && m.message == message
      && (data.NoData? ==> m.data == []) && (data.Marshalled? ==> m.data == data.bytes) && !data.Unmarshallable?
    case OpenStream(status, headers) =>
      m.Response? && m.id == env.id && m.status == status && m.headers == headers && m.body == [] && m.stream
    case _ => false
  }

  /** ms is what a claiming action puts on the wire: what it says, unless that is too large or
      cannot be marshalled. */
  ghost predicate Answered(env: Env, pending: map<string, string>, a: Action, ms: seq<Message>)
  {
    if a.SendError? && a.data.Unmarshallable? then ms == []
    else exists m :: Says(env, pending, a, m) && ms == if Accepts(env.mp, m) then [m] else []
  }

  /** There is no choice in it. */
  lemma AnsweredOnce(env: Env, pending: map<string, string>, a: Action, ms: seq<Message>, ms': seq<Message>)
    requires Answered(env, pending, a, ms) && Answered(env, pending, a, ms')
    ensures ms == ms'
  {
    hide Accepts;
    if !(a.SendError? && a.data.Unmarshallable?) {
      var m :| Says(env, pending, a, m) && ms == if Accepts(env.mp, m) then [m] else [];
      var m' :| Says(env, pending, a, m') && ms' == if Accepts(env.mp, m') then [m'] else [];
      assert a.Send? ==> m.headers == m'.headers;
    }
  }

  lemma ReplyAnswers(env: Env, pending: map<string, string>, a: Action)
    requires Claims(a)
    ensures Answered(env, pending, a, Reply(env, pending, a))
  {
    hide Accepts;
    match a
    case Send(status, headers, body) =>
      assert Says(env, pending, a, Response(env.id, status, pending + headers, body, false));
    case SendError(code, message, data) =>
      if !data.Unmarshallable? {
        assert Says(env, pending, a, ErrorFrame(env.id, code, message, ErrorBytes(data)));
      }
    case OpenStream(status, headers) =>
      assert Says(env, pending, a, Response(env.id, status, headers, [], true));
  }

  /** One operation of a context: the first claim is answered by exactly what it says, a later one
      changes nothing; a header is set; anything else leaves response and headers alone. */
  lemma OperationExactly(env: Env, c: Ctx, a: Action)
    ensures var c' := Do(env, c, a);
            && (Claims(a) && c.sent ==> c' == c)
            && (Claims(a) && !c.sent ==>
                  c'.sent && c'.pending == c.pending && c.log <= c'.log &&
                  Answered(env, c.pending, a, c'.log[|c.log|..]))
            && (a.SetHeader? ==> c' == c.(pending := c'.pending) && c'.pending == c.pending[a.key := a.value])
            && (a == SendUnmarshallable ==> c' == c)
            && (a.OnStream? ==> c'.sent == c.sent && c'.pending == c.pending && c.log <= c'.log)
            && (a.OnStream? && c.writer.None? ==> c' == c)
  {
    hide Answered, Accepts, Wire;
    if Claims(a) && !c.sent {
      ReplyAnswers(env, c.pending, a);
      assert Do(env, c, a).log[|c.log|..] == Reply(env, c.pending, a);
    }
  }

  function Do(env: Env, c: Ctx, a: Action): Ctx
  {
    match a
    case SetHeader(key, value) => c.(pending := c.pending[key := value])
    case SendUnmarshallable => c
    case OnStream(op) =>
      if c.writer.None? then c else
      var r := Apply(env.mp, env.id, Stream(c.writer.value, []), op);
      c.(writer := Some(r.writer), log := c.log + r.sent)
    case _ =>
      if c.sent then c else
      var log := c.log + Reply(env, c.pending, a);
      var started := a.OpenStream? && Reply(env, c.pending, a) != [] && !Clips(env.capacity, Wire(env.mp, log));
      Ctx(true, c.pending, if started then Some(FRESH) else c.writer, log)
  }

  function DoAll(env: Env, c: Ctx, actions: seq<Action>): Ctx
  {
    if actions == [] then c else Do(env, DoAll(env, c, actions[..|actions| - 1]), actions[|actions| - 1])
  }

  function Failure500(env: Env, p: Program): seq<Message>
  {
    if p.failure.Some? then Offered(env.mp, ErrorFrame(env.id, 500, p.failure.value, [])) else []
  }

  /** Handler, the dispatcher's own error, after-hooks.  The dispatcher's error goes out without
      setting the sent flag. */
  function AfterHandler(env: Env, p: Program): Ctx
  {
    var c := DoAll(env, NEW, p.actions);
    if c.sent then c else c.(log := c.log + Failure500(env, p))
  }

  function Serve(env: Env, p: Program, hooks: seq<Action>): seq<Message>
  {
    DoAll(env, AfterHandler(env, p), hooks).log
  }

  datatype App = App(handler: Message -> Program, hooks: Message -> seq<Action>)

  const MALFORMED := ErrorFrame("", 400, "malformed request frame", [])

  /** The messages dispatchStream hands to the transport for the bytes it finds on a stream. */
  function Answer(mp: MsgPack, capacity: int, app: App, input: Bytes): seq<Message>
  {
    match ParseFrame(input)
    case Got(f, _) =>
      if f.ftype == PING then Offered(mp, Ping(0))
      else if f.ftype != REQUEST then []
      else
        (match mp.decode(f.payload)
         case Some(Request(id, verb, path, headers, body, stream)) =>
           var req := Request(id, verb, path, headers, body, stream);
           Serve(Env(mp, id, capacity), app.handler(req), app.hooks(req))
         case _ => Offered(mp, MALFORMED))
    case _ => []
  }

  // ---------------------------------------------------------------- the wire grammar

  /** Nothing, a pong, one error, one response, or a response that opens a stream followed by
      its chunks. */
  predicate Grammatical(id: string, ms: seq<Message>)
  {
    || ms == []
    || (|ms| == 1 && (ms[0].Ping? || ms[0].ErrorFrame? || (ms[0].Response? && !ms[0].stream)))
    || (ms[0].Response? && ms[0].stream && StreamShaped(id, ms[1..]))
  }

  /** The writes and closes among these actions that find a writer to act on. */
  function OpsOnWriter(env: Env, c: Ctx, actions: seq<Action>): seq<Op>
  {
    if actions == [] then [] else
    var n := |actions| - 1;
    OpsOnWriter(env, c, actions[..n]) +
    (if DoAll(env, c, actions[..n]).writer.Some? && actions[n].OnStream? then [actions[n].op] else [])
  }

  /** All of them in one dispatch. */
  function Performed(env: Env, p: Program, hooks: seq<Action>): seq<Op>
  {
    OpsOnWriter(env, NEW, p.actions) + OpsOnWriter(env, AfterHandler(env, p), hooks)
  }

  /** What every action keeps, for a context on which nothing was written behind its back: until
      something is sent nothing is on the wire; afterwards there is one response, and a writer only
      behind a response that opened a stream, which then is exactly the stream that writer's
      operations produce. */
  ghost predicate Consistent(env: Env, c: Ctx, ops: seq<Op>)
  {
    && (!c.sent ==> c.log == [] && c.writer.None?)
    && (c.writer.None? ==>
          ops == [] && |c.log| <= 1 && (c.log != [] ==> (c.log[0].Response? || c.log[0].ErrorFrame?)))
    && (c.writer.Some? ==>
          c.log != [] && c.log[0].Response? && c.log[0].stream &&
          Stream(c.writer.value, c.log[1..]) == Fold(env.mp, env.id, ops))
  }

  lemma ActionConsistent(env: Env, c: Ctx, a: Action, ops: seq<Op>)
    requires Consistent(env, c, ops)
    ensures Consistent(env, Do(env, c, a), if c.writer.Some? && a.OnStream? then ops + [a.op] else ops)
  {
    hide Apply, Reply, Wire, Clips;
    ReplyShape(env, c.pending, a);
    if c.writer.Some? && a.OnStream? {
      FoldOne(env.mp, env.id, ops, a.op);
      ApplyFrom(env.mp, env.id, Fold(env.mp, env.id, ops), a.op);
      var r := Apply(env.mp, env.id, Stream(c.writer.value, []), a.op);
      assert (c.log + r.sent)[1..] == c.log[1..] + r.sent;
    }
  }

  lemma ReplyShape(env: Env, pending: map<string, string>, a: Action)
    ensures var r := Reply(env, pending, a);
            && |r| <= 1
            && (r != [] ==> r[0].Response? || r[0].ErrorFrame?)
            && (r != [] && a.OpenStream? ==> r[0].Response? && r[0].stream)
  {}

  lemma {:induction false} ConsistentAfter(env: Env, c: Ctx, ops: seq<Op>, actions: seq<Action>)
    requires Consistent(env, c, ops)
    ensures Consistent(env, DoAll(env, c, actions), ops + OpsOnWriter(env, c, actions))
    decreases |actions|
  {
    if actions == [] {
      assert ops + [] == ops;
    } else {
      hide Consistent, Do;
      var n := |actions| - 1;
      ConsistentAfter(env, c, ops, actions[..n]);
      var mid, a := ops + OpsOnWriter(env, c, actions[..n]), actions[n];
      ActionConsistent(env, DoAll(env, c, actions[..n]), a, mid);
      assert mid + [] == mid && OpsOnWriter(env, c, actions[..n]) + [] == OpsOnWriter(env, c, actions[..n]);
      assert a.OnStream? ==> mid + [a.op] == ops + (OpsOnWriter(env, c, actions[..n]) + [a.op]);
    }
  }

  lemma HandlerConsistent(env: Env, actions: seq<Action>)
    ensures Consistent(env, DoAll(env, NEW, actions), OpsOnWriter(env, NEW, actions))
  {
    ConsistentAfter(env, NEW, [], actions);
    assert [] + OpsOnWriter(env, NEW, actions) == OpsOnWriter(env, NEW, actions);
  }

  lemma ConsistentIsGrammatical(env: Env, c: Ctx, ops: seq<Op>)
    requires Consistent(env, c, ops)
    ensures Grammatical(env.id, c.log)
  {
    if c.writer.Some? {
      FoldShape(env.mp, env.id, ops);
    }
  }

  // ---------------------------------------------------------------- exactly when it is kept

  /** Where the first claiming action is; the number of actions if there is none. */
  function FirstClaim(actions: seq<Action>): (k: nat)
    ensures k <= |actions|
    ensures forall j :: 0 <= j < k ==> !Claims(actions[j])
    ensures k < |actions| ==> Claims(actions[k])
  {
    if actions == [] || Claims(actions[0]) then 0 else 1 + FirstClaim(actions[1..])
  }

  function SetHeaders(pending: map<string, string>, actions: seq<Action>): map<string, string>
  {
    if actions == [] then pending else
    var n := |actions| - 1;
    var p := SetHeaders(pending, actions[..n]);
    if actions[n].SetHeader? then p[actions[n].key := actions[n].value] else p
  }

  predicate IsLastFor(actions: seq<Action>, i: nat, key: string)
    requires i < |actions|
  {
    && actions[i].SetHeader? && actions[i].key == key
    && forall j :: i < j < |actions| && actions[j].SetHeader? ==> actions[j].key != key
  }

  /** The last value set for a header counts; a header nobody sets stays as it was. */
  lemma {:induction false} LastHeaderCounts(pending: map<string, string>, actions: seq<Action>, key: string)
    ensures var h := SetHeaders(pending, actions);
            && (forall i :: 0 <= i < |actions| && IsLastFor(actions, i, key) ==> key in h && h[key] == actions[i].value)
            && ((forall i :: 0 <= i < |actions| && actions[i].SetHeader? ==> actions[i].key != key) ==>
                  (key in h <==> key in pending) && (key in h ==> h[key] == pending[key]))
    decreases |actions|
  {
    if actions != [] {
      var n := |actions| - 1;
      LastHeaderCounts(pending, actions[..n], key);
      assert forall i :: 0 <= i < n ==> actions[..n][i] == actions[i];
    }
  }

  lemma {:induction false} QuietActions(env: Env, c: Ctx, actions: seq<Action>)
    requires !c.sent && c.writer.None? && forall i :: 0 <= i < |actions| ==> !Claims(actions[i])
    ensures DoAll(env, c, actions) == c.(pending := SetHeaders(c.pending, actions))
    decreases |actions|
  {
    if actions != [] {
      QuietActions(env, c, actions[..|actions| - 1]);
    }
  }

  lemma {:induction false} DoAllAppend(env: Env, c: Ctx, first: seq<Action>, rest: seq<Action>)
    ensures DoAll(env, c, first + rest) == DoAll(env, DoAll(env, c, first), rest)
    decreases |rest|
  {
    hide Do;
    if rest == [] {
      assert first + rest == first;
    } else {
      var n := |rest| - 1;
      DoAllAppend(env, c, first, rest[..n]);
      assert (first + rest)[..|first + rest| - 1] == first + rest[..n];
    }
  }

  lemma ClaimAdds(env: Env, c: Ctx, claim: Action)
    requires !c.sent && c.writer.None? && Claims(claim)
    ensures var c', ms := Do(env, c, claim), Reply(env, c.pending, claim);
            c'.sent && c'.log == c.log + ms && (ms == [] ==> c'.writer.None?)
  {
    hide Reply, Wire;
  }

  lemma FirstReplyAdds(env: Env, c: Ctx, actions: seq<Action>)
    requires !c.sent && c.writer.None?
    ensures var k, c' := FirstClaim(actions), DoAll(env, c, actions);
            && (k == |actions| ==> !c'.sent && c'.writer.None? && c'.log == c.log)
            && (k < |actions| ==>
                  var ms := Reply(env, SetHeaders(c.pending, actions[..k]), actions[k]);
                  c'.sent && c.log + ms <= c'.log && (ms == [] ==> c'.log == c.log && c'.writer.None?))
  {
    hide Do, Reply;
    var k := FirstClaim(actions);
    QuietActions(env, c, actions[..k]);
    if k == |actions| {
      assert actions[..k] == actions;
    } else {
      var quiet, claim, rest := actions[..k], actions[k], actions[k + 1..];
      assert actions == (quiet + [claim]) + rest;
      DoAllAppend(env, c, quiet + [claim], rest);
      assert (quiet + [claim])[..k] == quiet;
      var c1, c2 := DoAll(env, c, quiet), DoAll(env, c, quiet + [claim]);
      assert (quiet + [claim])[k] == claim && c2 == Do(env, c1, claim);
      ClaimAdds(env, c1, claim);
      SentOnlyStreams(env, c2, rest);
      assert c.log + [] == c.log;
    }
  }

  /** A context with nothing sent and no writer: the first action that claims the response decides.
      What it says, with the headers set before it, goes out if it is within the cap; nothing but
      chunks of its stream follows. */
  lemma FirstReplyDecides(env: Env, c: Ctx, actions: seq<Action>)
    requires !c.sent && c.writer.None?
    ensures var k, c' := FirstClaim(actions), DoAll(env, c, actions);
            && (k == |actions| ==> !c'.sent && c'.log == c.log)
            && (k < |actions| ==> c'.sent)
            && (k < |actions| ==>
                  exists ms :: Answered(env, SetHeaders(c.pending, actions[..k]), actions[k], ms) &&
                    c.log + ms <= c'.log && (ms == [] ==> c'.log == c.log))
  {
    hide Reply, Answered, SetHeaders, DoAll;
    FirstReplyAdds(env, c, actions);
    var k := FirstClaim(actions);
    if k < |actions| {
      ReplyAnswers(env, SetHeaders(c.pending, actions[..k]), actions[k]);
    }
  }

  lemma {:induction false} SentOnlyStreams(env: Env, c: Ctx, actions: seq<Action>)
    requires c.sent
    ensures var c' := DoAll(env, c, actions);
            c'.sent && c.log <= c'.log && (c.writer.None? ==> c'.writer.None? && c'.log == c.log)
    decreases |actions|
  {
    if actions != [] {
      SentOnlyStreams(env, c, actions[..|actions| - 1]);
    }
  }

  /** The one way out of the grammar: the handler failed without replying, the dispatcher's own
      error went out, and a hook replies as well. */
  predicate RepliesTwice(env: Env, p: Program, hooks: seq<Action>)
  {
    && Failure500(env, p) != []
    && FirstClaim(p.actions) == |p.actions|
    && var k := FirstClaim(hooks);
       k < |hooks| && Reply(env, SetHeaders(SetHeaders(map[], p.actions), hooks[..k]), hooks[k]) != []
  }

  lemma {:induction false} PendingHeaders(env: Env, c: Ctx, actions: seq<Action>)
    ensures DoAll(env, c, actions).pending == SetHeaders(c.pending, actions)
    decreases |actions|
  {
    if actions != [] {
      PendingHeaders(env, c, actions[..|actions| - 1]);
    }
  }

  /** For every handler, every hooks and every point at which the transport may fail: the messages
      handed to the transport follow the grammar unless the request is answered twice. */
  lemma GrammarExactly(env: Env, p: Program, hooks: seq<Action>)
    ensures Grammatical(env.id, Serve(env, p, hooks)) <==> !RepliesTwice(env, p, hooks)
  {
    var handled := DoAll(env, NEW, p.actions);
    FirstReplyAdds(env, NEW, p.actions);
    PendingHeaders(env, NEW, p.actions);
    HandlerConsistent(env, p.actions);
    var c := AfterHandler(env, p);
    if handled.sent || Failure500(env, p) == [] {
      assert c.log == handled.log + [] || c == handled;
      assert handled.log + [] == handled.log;
      ConsistentAfter(env, c, OpsOnWriter(env, NEW, p.actions), hooks);
      ConsistentIsGrammatical(env, DoAll(env, c, hooks), Performed(env, p, hooks));
    } else {
      FirstReplyAdds(env, c, hooks);
      var k := FirstClaim(hooks);
      if k < |hooks| && Reply(env, SetHeaders(c.pending, hooks[..k]), hooks[k]) != [] {
        var log := Serve(env, p, hooks);
        assert |log| >= 2 && log[0] == c.log[0];
        assert log[0].ErrorFrame?;
      }
    }
  }

  /** The answer to a request: what the handler's first claim says; failing that, the error of a
      handler that failed; failing that, what the hooks' first claim says. */
  lemma ServeAnswers(env: Env, p: Program, hooks: seq<Action>)
    ensures var ms, k, j := Serve(env, p, hooks), FirstClaim(p.actions), FirstClaim(hooks);
            var failed := p.failure.Some? && Accepts(env.mp, ErrorFrame(env.id, 500, p.failure.value, []));
            && (k < |p.actions| ==>
                  exists r :: Answered(env, SetHeaders(map[], p.actions[..k]), p.actions[k], r) && r <= ms && (r == [] ==> ms == []))
            && (k == |p.actions| && failed ==> ms != [] && ms[0] == ErrorFrame(env.id, 500, p.failure.value, []))
            && (k == |p.actions| && !failed && j < |hooks| ==>
                  exists r :: Answered(env, SetHeaders(SetHeaders(map[], p.actions), hooks[..j]), hooks[j], r) && r <= ms && (r == [] ==> ms == []))
            && (k == |p.actions| && !failed && j == |hooks| ==> ms == [])
  {
    hide Reply, Answered, SetHeaders, DoAll, Accepts;
    var k, j := FirstClaim(p.actions), FirstClaim(hooks);
    FirstReplyAdds(env, NEW, p.actions);
    PendingHeaders(env, NEW, p.actions);
    var handled, c := DoAll(env, NEW, p.actions), AfterHandler(env, p);
    if k < |p.actions| {
      ReplyAnswers(env, SetHeaders(map[], p.actions[..k]), p.actions[k]);
      SentOnlyStreams(env, c, hooks);
    } else {
      FirstReplyAdds(env, c, hooks);
      assert handled.log + [] == handled.log;
      if j < |hooks| {
        ReplyAnswers(env, SetHeaders(c.pending, hooks[..j]), hooks[j]);
      }
    }
  }

  /** A handler that fails silently, and a hook that reports: two responses to one request. */
  lemma RepliesTwiceExample(env: Env)
    requires Accepts(env.mp, ErrorFrame(env.id, 500, "boom", []))
    requires Accepts(env.mp, Response(env.id, 200, map[], [], false))
    ensures Serve(env, Program([], Some("boom")), [Send(200, map[], [])])
            == [ErrorFrame(env.id, 500, "boom", []), Response(env.id, 200, map[], [], false)]
  {
    var p, hook := Program([], Some("boom")), Send(200, map[], []);
    var c := AfterHandler(env, p);
    assert c.log == [ErrorFrame(env.id, 500, "boom", [])] && !c.sent;
    assert c.pending == map[] && c.pending + map[] == map[];
    assert [hook][..0] == [];
    assert DoAll(env, c, [hook]) == Do(env, DoAll(env, c, []), hook) == Do(env, c, hook);
  }

  lemma {:induction false} NoWriterNoOps(env: Env, c: Ctx, actions: seq<Action>)
    requires DoAll(env, c, actions).writer.None?
    ensures OpsOnWriter(env, c, actions) == []
    decreases |actions|
  {
    if actions != [] {
      NoWriterNoOps(env, c, actions[..|actions| - 1]);
    }
  }

  /** What follows the first message of a dispatch. */
  function Behind(ms: seq<Message>): seq<Message> { if ms == [] then [] else ms[1..] }

  /** The stream of a response that opened one is what its writer makes of the writes and closes
      performed on it; numbering and delivery are those of any such stream. */
  lemma OpenedStream(env: Env, p: Program, hooks: seq<Action>)
    requires !RepliesTwice(env, p, hooks)
    ensures var ms := Serve(env, p, hooks);
            && Behind(ms) == Fold(env.mp, env.id, Performed(env, p, hooks)).sent
            && (|ms| > 1 ==> ms[0].Response? && ms[0].stream)
  {
    FirstReplyAdds(env, NEW, p.actions);
    PendingHeaders(env, NEW, p.actions);
    var handled, c := DoAll(env, NEW, p.actions), AfterHandler(env, p);
    HandlerConsistent(env, p.actions);
    if handled.sent || Failure500(env, p) == [] {
      assert handled.log + [] == handled.log;
      ConsistentAfter(env, c, OpsOnWriter(env, NEW, p.actions), hooks);
    } else {
      FirstReplyAdds(env, c, hooks);
      NoWriterNoOps(env, NEW, p.actions);
      NoWriterNoOps(env, c, hooks);
      assert Performed(env, p, hooks) == [];
    }
  }

  /** Chunk numbers increase, gaps and all; they are 0, 1, 2 and so on, the end marker's included,
      exactly if no frame was refused before one that was accepted. */
  lemma OpenedStreamNumbering(env: Env, p: Program, hooks: seq<Action>)
    requires !RepliesTwice(env, p, hooks)
    ensures var stream, ops := Behind(Serve(env, p, hooks)), Performed(env, p, hooks);
            && (Contiguous(stream) <==> RefusalsDoNotShow(env.mp, env.id, ops))
            && (|ops| <= TWO_TO_THE_64 ==>
                  (Contiguous(stream) <==> !RefusalBeforeFrame(env.mp, env.id, ops)) &&
                  forall j, k :: 0 <= j < k < |stream| ==>
                    stream[j].StreamChunk? && stream[k].StreamChunk? && stream[j].seqNo < stream[k].seqNo)
  {
    hide Serve, Performed, RepliesTwice, Fold, RefusalsDoNotShow, RefusalBeforeFrame, Contiguous;
    OpenedStream(env, p, hooks);
    var ops := Performed(env, p, hooks);
    NumberingExactly(env.mp, env.id, ops);
    if |ops| <= TWO_TO_THE_64 {
      NumbersIncrease(env.mp, env.id, ops);
      GapsExactly(env.mp, env.id, ops);
    }
  }

  predicate TwiceAnswered(mp: MsgPack, capacity: int, app: App, input: Bytes)
  {
    match ParseFrame(input)
    case Got(f, _) =>
      var m := mp.decode(f.payload);
      f.ftype == REQUEST && m.Some? && m.value.Request? &&
      RepliesTwice(Env(mp, m.value.id, capacity), app.handler(m.value), app.hooks(m.value))
    case _ => false
  }

  function RequestId(mp: MsgPack, input: Bytes): string
  {
    match ParseFrame(input)
    case Got(f, _) =>
      var m := mp.decode(f.payload);
      if m.Some? && m.value.Request? then m.value.id else ""
    case _ => ""
  }

  /** The same for everything a client can put on a stream, malformed input included. */
  lemma AnswerGrammar(mp: MsgPack, capacity: int, app: App, input: Bytes)
    ensures Grammatical(RequestId(mp, input), Answer(mp, capacity, app, input)) <==>
            !TwiceAnswered(mp, capacity, app, input)
  {
    var r := ParseFrame(input);
    if r.Got? && r.frame.ftype == REQUEST {
      var m := mp.decode(r.frame.payload);
      if m.Some? && m.value.Request? {
        var req := m.value;
        assert req == Request(req.id, req.verb, req.path, req.headers, req.body, req.stream);
        GrammarExactly(Env(mp, req.id, capacity), app.handler(req), app.hooks(req));
      }
    }
  }

  /** What each kind of frame is answered with: a ping (type 6) by a pong, a request (type 1) by its
      handler or, if it cannot be decoded, by an error 400, and any other frame, or none, by
      nothing. */
  lemma AnswerExactly(mp: MsgPack, capacity: int, app: App, input: Bytes)
    ensures var ms, r := Answer(mp, capacity, app, input), ParseFrame(input);
            && (!r.Got? ==> ms == [])
            && (r.Got? && r.frame.ftype == 6 ==> ms == if Accepts(mp, Ping(0)) then [Ping(0)] else [])
            && (r.Got? && r.frame.ftype != 1 && r.frame.ftype != 6 ==> ms == [])
            && (r.Got? && r.frame.ftype == 1 ==>
                  var m := mp.decode(r.frame.payload);
                  var malformed := ErrorFrame("", 400, "malformed request frame", []);
                  if m.Some? && m.value.Request?
                  then ms == Serve(Env(mp, m.value.id, capacity), app.handler(m.value), app.hooks(m.value))
                  else ms == if Accepts(mp, malformed) then [malformed] else [])
  {
    hide ParseFrame, Accepts, Serve;
    var r := ParseFrame(input);
    if r.Got? && mp.decode(r.frame.payload).Some? && mp.decode(r.frame.payload).value.Request? {
      var m := mp.decode(r.frame.payload).value;
      assert m == Request(m.id, m.verb, m.path, m.headers, m.body, m.stream);
    }
  }

  // ---------------------------------------------------------------- the bytes on the wire

  /** These bytes are all or the beginning of what a grammatical answer looks like. */
  ghost predicate BeginsGrammatical(mp: MsgPack, id: string, out: Bytes)
  {
    exists ms: seq<Message> :: Grammatical(id, ms) && AllFit(mp, ms) && out <= Wire(mp, ms)
  }

  predicate AllFit(mp: MsgPack, ms: seq<Message>) { forall m <- ms :: Accepts(mp, m) && Fits(mp, m) }

  lemma WireFront(mp: MsgPack, ms: seq<Message>)
    requires ms != []
    ensures Wire(mp, ms) == MessageBytes(mp, ms[0]) + Wire(mp, ms[1..])
    ensures |Wire(mp, ms)| >= |MessageBytes(mp, ms[0])| >= 5
  {
    assert ms == [ms[0]] + ms[1..];
    WireAppend(mp, [ms[0]], ms[1..]);
    WireOne(mp, ms[0]);
  }

  /** The first five bytes tell the type and the length. */
  lemma HeaderTells(mp: MsgPack, a: Message, b: Message, x: Bytes, y: Bytes)
    requires Fits(mp, a) && Fits(mp, b)
    requires MessageBytes(mp, a) + x <= MessageBytes(mp, b) + y
    ensures TypeOf(a) == TypeOf(b) && |MessageBytes(mp, a)| == |MessageBytes(mp, b)|
  {
    hide PutUint32, Narrow;
    NarrowFacts(1 + |mp.encode(a)|);
    NarrowFacts(1 + |mp.encode(b)|);
    var s, t := MessageBytes(mp, a) + x, MessageBytes(mp, b) + y;
    assert s[..4] == PutUint32(GoLength(mp.encode(a))) && t[..4] == PutUint32(GoLength(mp.encode(b)));
    assert t[..4] == s[..4] && t[4] == s[4];
    LengthRoundTrip(GoLength(mp.encode(a)));
    LengthRoundTrip(GoLength(mp.encode(b)));
  }

  /** An error frame and one byte more is the beginning of no grammatical answer. */
  lemma NothingBehindAnError(mp: MsgPack, id: string, ms: seq<Message>, capacity: int)
    requires |ms| >= 2 && ms[0].ErrorFrame? && AllFit(mp, ms)
    requires capacity < 0 || capacity > |MessageBytes(mp, ms[0])|
    ensures !BeginsGrammatical(mp, id, Clip(capacity, Wire(mp, ms)))
  {
    hide MessageBytes, Wire, Accepts, Fits;
    var out := Clip(capacity, Wire(mp, ms));
    WireFront(mp, ms);
    WireFront(mp, ms[1..]);
    var head := MessageBytes(mp, ms[0]);
    assert |out| > |head|;
    var x := out[|head|..];
    assert out == head + x;
    forall gs | Grammatical(id, gs) && AllFit(mp, gs) && out <= Wire(mp, gs) ensures false {
      assert gs != [] by { assert |Wire(mp, [])| == 0 by { EmptyWire(mp); } }
      WireFront(mp, gs);
      HeaderTells(mp, ms[0], gs[0], x, Wire(mp, gs[1..]));
      TypeTells(gs[0]);
      assert gs[1..] == [];
      EmptyWire(mp);
    }
  }

  lemma {:induction false} LogAccepted(env: Env, c: Ctx, actions: seq<Action>)
    requires forall m <- c.log :: Accepts(env.mp, m)
    ensures forall m <- DoAll(env, c, actions).log :: Accepts(env.mp, m)
    decreases |actions|
  {
    if actions != [] {
      LogAccepted(env, c, actions[..|actions| - 1]);
    }
  }

  lemma ServeAccepted(env: Env, p: Program, hooks: seq<Action>)
    ensures forall m <- Serve(env, p, hooks) :: Accepts(env.mp, m)
  {
    LogAccepted(env, NEW, p.actions);
    LogAccepted(env, AfterHandler(env, p), hooks);
  }

  lemma AnswerAccepted(mp: MsgPack, capacity: int, app: App, input: Bytes)
    ensures forall m <- Answer(mp, capacity, app, input) :: Accepts(mp, m)
  {
    hide Accepts, Serve;
    var r := ParseFrame(input);
    if r.Got? && r.frame.ftype == REQUEST {
      var m := mp.decode(r.frame.payload);
      if m.Some? && m.value.Request? {
        var req := Request(m.value.id, m.value.verb, m.value.path, m.value.headers, m.value.body, m.value.stream);
        ServeAccepted(Env(mp, req.id, capacity), app.handler(req), app.hooks(req));
      }
    }
  }

  lemma EmptyWire(mp: MsgPack)
    ensures Wire(mp, []) == []
  {}

  lemma TypeTells(m: Message)
    ensures TypeOf(m) == ERROR <==> m.ErrorFrame?
  {}

  lemma TwiceAnsweredMessages(mp: MsgPack, capacity: int, app: App, input: Bytes)
    requires TwiceAnswered(mp, capacity, app, input)
    ensures var ms := Answer(mp, capacity, app, input); |ms| >= 2 && ms[0].ErrorFrame?
  {
    var m := mp.decode(ParseFrame(input).frame.payload).value;
    var req := Request(m.id, m.verb, m.path, m.headers, m.body, m.stream);
    assert req == m;
    RepliesTwiceMessages(Env(mp, m.id, capacity), app.handler(m), app.hooks(m));
  }

  lemma RepliesTwiceMessages(env: Env, p: Program, hooks: seq<Action>)
    requires RepliesTwice(env, p, hooks)
    ensures |Serve(env, p, hooks)| >= 2 && Serve(env, p, hooks)[0].ErrorFrame?
  {
    FirstReplyAdds(env, NEW, p.actions);
    PendingHeaders(env, NEW, p.actions);
    var c := AfterHandler(env, p);
    FirstReplyAdds(env, c, hooks);
    assert c.log == Failure500(env, p);
    assert Serve(env, p, hooks)[0] == c.log[0];
  }

  /** What is on the wire after a dispatch is all or the beginning of a grammatical answer, unless
      the request was answered twice and the transport took more than the first answer. */
  lemma AnswerBytesExactly(mp: MsgPack, capacity: int, app: App, input: Bytes)
    requires forall m <- Answer(mp, capacity, app, input) :: Fits(mp, m)
    ensures var ms := Answer(mp, capacity, app, input);
            BeginsGrammatical(mp, RequestId(mp, input), Clip(capacity, Wire(mp, ms))) <==>
            !TwiceAnswered(mp, capacity, app, input) ||
            (ms != [] && 0 <= capacity <= |MessageBytes(mp, ms[0])|)
  {
    hide Answer, TwiceAnswered, RequestId, MessageBytes, Wire, Accepts, Fits;
    var ms, id := Answer(mp, capacity, app, input), RequestId(mp, input);
    var out := Clip(capacity, Wire(mp, ms));
    AnswerAccepted(mp, capacity, app, input);
    AnswerGrammar(mp, capacity, app, input);
    if TwiceAnswered(mp, capacity, app, input) {
      TwiceAnsweredMessages(mp, capacity, app, input);
      if 0 <= capacity <= |MessageBytes(mp, ms[0])| {
        WireFront(mp, ms);
        WireOne(mp, ms[0]);
        assert out <= Wire(mp, [ms[0]]);
        assert Grammatical(id, [ms[0]]) && AllFit(mp, [ms[0]]);
      } else {
        NothingBehindAnError(mp, id, ms, capacity);
      }
    } else {
      assert Grammatical(id, ms) && out <= Wire(mp, ms);
    }
  }

  // ---------------------------------------------------------------- the code

  class Context {
    const sink: ByteSink
    const mp: MsgPack
    const id: string
    var sent: bool
    var resHeaders: map<string, string>
    var writer: StreamWriter?
    ghost var log: seq<Message>

    ghost function Setting(): Env { Env(mp, id, sink.capacity) }

    ghost function State(): Ctx
      reads this, writer
    {
      Ctx(sent, resHeaders, if writer == null then None else Some(writer.State()), log)
    }

    ghost predicate Valid()
      reads this, sink, writer
    {
      && sink.Valid() && sink.out == Clip(sink.capacity, Wire(mp, log))
      && (writer != null ==> writer.sink == sink && writer.mp == mp && writer.requestId == id)
    }

    constructor (sink: ByteSink, mp: MsgPack, id: string)
      requires sink.Valid() && sink.out == []
      ensures Valid() && this.sink == sink && this.mp == mp && this.id == id
      ensures State() == NEW && writer == null
    {
      this.sink, this.mp, this.id := sink, mp, id;
      sent, resHeaders, writer, log := false, map[], null, [];
    }

    /** WriteFrame of one message; the log remembers what was offered to the transport. */
    method Put(m: Message) returns (ok: bool)
      requires Valid()
      modifies this`log, sink
      ensures Valid() && log == old(log) + Offered(mp, m)
      ensures ok <==> Accepts(mp, m) && !Clips(sink.capacity, Wire(mp, log))
    {
      WireAppend(mp, log, Offered(mp, m));
      ClipAppend(sink.capacity, Wire(mp, log), Wire(mp, Offered(mp, m)));
      ClipsAppend(sink.capacity, Wire(mp, log), Wire(mp, Offered(mp, m)));
      WireOne(mp, m);
      ok := WriteMessage(sink, mp, m);
      log := log + Offered(mp, m);
    }

    method WriteResponse(status: int, headers: map<string, string>, body: Bytes) returns (ok: bool)
      requires Valid()
      modifies this`sent, this`log, sink
      ensures Valid() && State() == Do(Setting(), old(State()), Send(status, headers, body))
      ensures if old(sent) then log == old(log)
              else sent && old(log) <= log && Answered(Setting(), old(resHeaders), Send(status, headers, body), log[|old(log)|..])
      ensures ok <==> !old(sent) && log != old(log) && !Clips(sink.capacity, Wire(mp, log))
    {
      hide Wire, Clip, Clips, Apply, Answered;
      OperationExactly(Setting(), State(), Send(status, headers, body));
      if sent {
        return false;
      }
      sent := true;
      ok := Put(Response(id, status, resHeaders + headers, body, false));
    }

    method Error(code: int, message: string, data: ErrorData) returns (ok: bool)
      requires Valid()
      modifies this`sent, this`log, sink
      ensures Valid() && State() == Do(Setting(), old(State()), SendError(code, message, data))
      ensures if old(sent) then log == old(log)
              else sent && old(log) <= log && Answered(Setting(), old(resHeaders), SendError(code, message, data), log[|old(log)|..])
      ensures ok <==> old(sent) || (log != old(log) && !Clips(sink.capacity, Wire(mp, log)))
    {
      hide Wire, Clip, Clips, Apply, Answered;
      OperationExactly(Setting(), State(), SendError(code, message, data));
      if sent {
        return true;
      }
      sent := true;
      var payload: Bytes := [];
      if !data.NoData? {
        if data.Unmarshallable? {
          assert log + [] == log;
          return false;
        }
        payload := data.bytes;
      }
      ok := Put(ErrorFrame(id, code, message, payload));
    }

    method NewStream(status: int, headers: map<string, string>) returns (ok: bool)
      requires Valid()
      modifies this`sent, this`log, this`writer, sink
      ensures Valid() && State() == Do(Setting(), old(State()), OpenStream(status, headers))
      ensures if old(sent) then log == old(log)
              else sent && old(log) <= log && Answered(Setting(), old(resHeaders), OpenStream(status, headers), log[|old(log)|..])
      ensures writer == old(writer) || fresh(writer)
      ensures ok <==> !old(sent) && log != old(log) && !Clips(sink.capacity, Wire(mp, log))
      ensures ok ==> fresh(writer) && writer.seqNo == 0 && !writer.closed
      ensures !ok ==> writer == old(writer)
    {
      hide Wire, Clip, Clips, Apply, Answered;
      OperationExactly(Setting(), State(), OpenStream(status, headers));
      if sent {
        return false;
      }
      sent := true;
      ok := Put(Response(id, status, headers, [], true));
      if ok {
        writer := new StreamWriter(sink, mp, id);
      }
    }

    /** One action of a handler or hook. */
    method Perform(a: Action)
      requires Valid()
      modifies this, sink, writer
      ensures Valid() && State() == Do(Setting(), old(State()), a)
      ensures writer == old(writer) || fresh(writer)
    {
      hide Wire, MessageBytes, Clip, Clips, Apply, Reply;
      match a
      case SetHeader(key, value) =>
        resHeaders := resHeaders[key := value];
      case Send(status, headers, body) =>
        var _ := WriteResponse(status, headers, body);
      case SendUnmarshallable =>
      case SendError(code, message, data) =>
        var _ := Error(code, message, data);
      case OpenStream(status, headers) =>
        var _ := NewStream(status, headers);
      case OnStream(op) =>
        if writer != null {
          ghost var r := writer.After(op);
          WireAppend(mp, log, r.sent);
          ClipAppend(sink.capacity, Wire(mp, log), Wire(mp, r.sent));
          if op.WriteOp? {
            var _, _ := writer.Write(op.data);
          } else {
            var _ := writer.Close();
          }
          log := log + r.sent;
        }
    }

    method PerformAll(actions: seq<Action>)
      requires Valid()
      modifies this, sink, writer
      ensures Valid() && State() == DoAll(Setting(), old(State()), actions)
      ensures writer == old(writer) || fresh(writer)
    {
      assert actions[..|actions|] == actions;
      for i := 0 to |actions|
        invariant Valid() && State() == DoAll(Setting(), old(State()), actions[..i])
        invariant writer == old(writer) || fresh(writer)
      {
        assert actions[..i + 1][..i] == actions[..i];
        Perform(actions[i]);
      }
    }
  }

  lemma ClipsAppend(capacity: int, a: Bytes, b: Bytes)
    ensures b != [] ==> (Clips(capacity, Clip(capacity, a) + b) <==> Clips(capacity, a + b))
  {}

  /** dispatchStream: what is on the wire afterwards is as much of the answer as the transport
      took. */
  method DispatchStream(reader: ByteReader, sink: ByteSink, mp: MsgPack, app: App)
    requires reader.Valid() && sink.Valid() && sink.out == []
    modifies reader, sink
    ensures sink.out == Clip(sink.capacity, Wire(mp, Answer(mp, sink.capacity, app, old(reader.Remaining()))))
  {
    var r := reader.ReadFrame();
    if !r.Got? {
      return;
    }
    assert forall b: Bytes :: [] + b == b;
    if r.frame.ftype == PING {
      var _ := WriteMessage(sink, mp, Ping(0));
      return;
    }
    if r.frame.ftype != REQUEST {
      return;
    }
    var decoded := mp.decode(r.frame.payload);
    if decoded.None? || !decoded.value.Request? {
      var _ := WriteMessage(sink, mp, MALFORMED);
      return;
    }
    var req := decoded.value;
    var c := new Context(sink, mp, req.id);
    var p := app.handler(req);
    c.PerformAll(p.actions);
    if p.failure.Some? && !c.sent {
      var _ := c.Put(ErrorFrame(req.id, 500, p.failure.value, []));
    }
    assert p.failure.None? ==> c.log + [] == c.log;
    assert c.State() == AfterHandler(c.Setting(), p);
    c.PerformAll(app.hooks(req));
  }
}
