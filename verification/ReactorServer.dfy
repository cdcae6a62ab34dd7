/** The classes of the WebSocket server, each method tied to a step of the state they stand for. */
module Reactor {
  import opened Bytes
  import opened ReactorEffect
  import opened ReactorState
  import opened WsFrame

  /** Some element of a set that is walked in no particular order */
  method Pick(s: set<int>) returns (x: int)
    requires s != {}
    ensures x in s
  {
    NoneMeansEmpty(s);
    x :| x in s;
  }

  lemma NoneMeansEmpty(s: set<int>)
    ensures (forall x :: x !in s) ==> s == {}
  {
    if forall x :: x !in s {
      assert s == {};
    }
  }

  class Handler {
    const fd: int
    ghost const id: nat
    var readBuf: bytes
    var writeBuf: bytes
    var upgraded: bool
    ghost var received: bytes
    ghost var handled: seq<Frame>
    ghost var hello: bytes
    ghost var frames: seq<Frame>
    ghost var sent: bytes
    ghost var regAt: nat
    ghost var dropped: bool
    ghost var alive: bool // not deleted

    ghost function View(): Conn
      reads this
    {
      Conn(readBuf, writeBuf, upgraded, received, handled, hello, frames, sent, regAt, dropped, id)
    }

    constructor (fd: int, ghost id: nat)
      ensures this.fd == fd && alive && View() == Conn([], [], false, [], [], [], [], [], 0, false, id)
    {
      this.fd, this.id := fd, id;
      readBuf, writeBuf, upgraded := [], [], false;
      received, handled, hello, frames, sent := [], [], [], [], [];
      regAt, dropped, alive := 0, false, true;
    }

    /** append_read */
    method AppendRead(data: bytes) returns (ok: bool)
      requires alive
      modifies `readBuf, `received
      ensures ok == (data == [] || |old(readBuf)| + |data| <= 1024 * 1024 + 16 * 1024)
      ensures ok ==> readBuf == old(readBuf) + data && received == old(received) + data
      ensures !ok ==> readBuf == old(readBuf) && received == old(received)
    {
      if data == [] {
        return true;
      }
      if |readBuf| + |data| > MAX_READ {
        return false;
      }
      readBuf, received := readBuf + data, received + data;
      ok := true;
    }

    /** append_outgoing */
    method AppendOutgoing(net: Network, data: bytes, updateEpoll: bool, ghost item: Item)
      requires net.Has(this) && (data != [] ==> Sendable(item) && data == DataOf(item))
      modifies `writeBuf, `hello, `frames, `dropped, net`pendingCloses, net`queuedIds, net`masks
      ensures net.Has(this)
      ensures net.State() == if data == [] then old(net.State())
                             else Append(old(net.State()), fd, item, updateEpoll && fd != net.listenFd)
    {
      hide Wire, ServerFrame;
      if data == [] {
        return;
      }
      if |writeBuf| + |data| > MAX_WRITE {
        dropped := true;
        net.QueueClose(fd, id);
      } else {
        writeBuf := writeBuf + data;
        if item.Response? {
          hello := item.text;
        } else {
          frames := frames + [item.frame];
        }
        if updateEpoll {
          net.UpdateHandlerEvents(fd);
        }
      }
      assert View() == Put(old(View()), item);
      net.OneChanged(this);
    }

    /** handle_one_frame: text is echoed and broadcast, a close frame queues the connection, a
        ping is answered; anything else is dropped. */
    method HandleOneFrame(net: Network, opcode: nat, payload: bytes)
      requires net.Has(this) && upgraded && fd != net.listenFd && Core(net.State(), net.listenFd)
      requires |payload| <= MAX_PAYLOAD
      modifies net`pendingCloses, net`queuedIds, net`masks, net`texts, net.handlers.Values
      ensures net.Has(this) && Core(net.State(), net.listenFd)
      ensures InputsKept(old(net.State()), net.State())
      ensures HandledOne(old(net.State()), net.State(), fd, opcode, payload)
    {
      hide Core, Broadcast, InputsKept, Append, Wire, ServerFrame, Packed;
      if opcode == TEXT {
        var out := PackData(payload, 1, TEXT, 0);
        PackedIsServerFrame(TEXT, payload);
        HandleText(net, out, Packed(TEXT, payload));
      } else if opcode == CLOSE {
        ghost var s := net.State();
        net.QueueClose(fd, id);
        QueueKeeps(s, net.State(), fd, net.listenFd);
      } else if opcode == PING {
        var pong := PackData(payload, 1, PONG, 0);
        PackedIsServerFrame(PONG, payload);
        HandlePing(net, pong, Packed(PONG, payload));
      } else {
        NothingHappens(net.State());
      }
    }

    /** The echo to the sender, and the broadcast to everyone else */
    method HandleText(net: Network, out: bytes, ghost f: Frame)
      requires net.Has(this) && upgraded && fd != net.listenFd && Core(net.State(), net.listenFd)
      requires ServerFrame(f) && f.Opcode() == TEXT && out == Wire(f)
      modifies net`pendingCloses, net`queuedIds, net`masks, net`texts, net.handlers.Values
      ensures net.Has(this) && Core(net.State(), net.listenFd)
      ensures InputsKept(old(net.State()), net.State())
      ensures var s := old(net.State());
        Broadcast(s.(texts := s.texts + [f]), net.State(), s.clients, f)
    {
      hide Broadcast, InputsKept, Append, Wire, ServerFrame, Sound, IdsUnique, MasksFit;
      ghost var s0 := net.State();
      net.texts := net.texts + [f];
      ghost var s1 := net.State();
      AppendOutgoing(net, out, true, Framed(f));
      ghost var s2 := net.State();
      AppendIsBroadcast(s1, fd, f);
      ReadyToBroadcast(s1, s2, fd, f);
      net.BroadcastWsBinary(fd, out, f);
      BroadcastTwice(s1, s2, net.State(), {fd}, s1.clients - {fd}, f);
      assert {fd} + (s1.clients - {fd}) == s1.clients;
      TextKeepsCore(s0, net.State(), f, net.listenFd);
      BroadcastKeepsInputs(s1, net.State(), s1.clients, f);
      TextsAside(s0, s1, net.State());
    }

    method HandlePing(net: Network, pong: bytes, ghost f: Frame)
      requires net.Has(this) && upgraded && fd != net.listenFd && Core(net.State(), net.listenFd)
      requires ServerFrame(f) && f.Opcode() == PONG && pong == Wire(f)
      modifies net`pendingCloses, net`queuedIds, net`masks, net.handlers.Values
      ensures net.Has(this) && Core(net.State(), net.listenFd)
      ensures InputsKept(old(net.State()), net.State())
      ensures Broadcast(old(net.State()), net.State(), {fd}, f)
    {
      hide Broadcast, InputsKept, Append, Wire, ServerFrame, Sound, IdsUnique, MasksFit;
      ghost var s := net.State();
      AppendOutgoing(net, pong, true, Framed(f));
      AppendIsBroadcast(s, fd, f);
      OtherKeepsCore(s, net.State(), {fd}, f, net.listenFd);
      BroadcastKeepsInputs(s, net.State(), {fd}, f);
    }

    /** One complete frame leaves the buffer and is handled. */
    method HandleNext(net: Network, opcode: nat, payload: bytes, rest: bytes)
      requires net.Has(this) && fd != net.listenFd && Core(net.State(), net.listenFd) && upgraded
      requires fd in net.pendingCloses || Lagging(View())
      requires Parse(readBuf).Ok? && rest == readBuf[Parse(readBuf).total..]
      requires opcode == Parse(readBuf).frame.Opcode() && payload == Parse(readBuf).frame.payload
      modifies net`pendingCloses, net`queuedIds, net`masks, net`texts, net.handlers.Values
      ensures net.Has(this) && upgraded && |readBuf| < |old(readBuf)|
      ensures Going(old(net.State()), net.State(), fd, net.listenFd)
      ensures var s1 := Taken(old(net.State()), fd);
        HandledOne(s1, net.State(), fd, opcode, payload) && SameInput(s1.conns[fd], View())
    {
      hide Core, OthersKept, Lagging, Parse, InputsKept, Going, HandledOne;
      ghost var s0 := net.State();
      ghost var v := Parse(readBuf);
      readBuf := rest;
      handled := handled + [v.frame];
      net.OneChanged(this);
      ghost var s1 := net.State();
      InputKeepsCore(s0, s1, fd, View(), net.listenFd);
      HandleOneFrame(net, opcode, payload);
      GoingByOneFrame(s0, s1, net.State(), fd, net.listenFd);
      SelfKept(s1, net.State(), fd);
    }

    /** The loop over complete frames */
    method HandleFrames(net: Network)
      requires net.Has(this) && fd != net.listenFd && Core(net.State(), net.listenFd) && upgraded
      requires fd in net.pendingCloses || Lagging(View())
      modifies net`pendingCloses, net`queuedIds, net`masks, net`texts, net.handlers.Values
      ensures net.Has(this) && Finished(old(net.State()), net.State(), fd, net.listenFd)
      ensures AllHandled(old(net.State()), net.State(), fd)
    {
      hide Core, Lagging, Parse, Going, Finished, Underway, AllHandled, HandledOne, SameInput, Taken;
      ghost var s0 := net.State();
      ghost var taken: seq<Frame> := [];
      GoingFirst(s0, fd, net.listenFd);
      UnderwayFirst(s0, fd);
      var request := new Request();
      while true
        invariant fresh(request) && net.handlers == old(net.handlers)
        invariant net.Has(this) && upgraded && Going(s0, net.State(), fd, net.listenFd)
        invariant Underway(s0, net.State(), fd, taken)
        decreases |readBuf|
      {
        ghost var s1 := net.State();
        var status, rest := request.TryConsumeFrame(readBuf);
        if status == NEED_MORE {
          GoingEnds(s0, s1, fd, net.listenFd);
          AllHandledNow(s0, s1, fd, taken);
          return;
        }
        if status == PARSE_ERROR {
          net.QueueClose(fd, id);
          GoingIsQueued(s0, s1, net.State(), fd, net.listenFd);
          AllHandledButRest(s0, s1, net.State(), fd, taken);
          return;
        }
        WhileGoing(s0, s1, fd, net.listenFd);
        HandleNext(net, request.opcode, request.payload, rest);
        GoingTwice(s0, s1, net.State(), fd, net.listenFd);
        UnderwayNext(s0, s1, net.State(), fd, taken);
        taken := taken + [Parse(s1.conns[fd].readBuf).frame];
      }
    }

    /** drive_io: finish the handshake, then handle every complete frame in the buffer. */
    method DriveIo(net: Network)
      requires net.Has(this) && fd != net.listenFd && Core(net.State(), net.listenFd)
      requires fd in net.pendingCloses || Lagging(View())
      modifies net`pendingCloses, net`queuedIds, net`masks, net`texts, net`wsClients, net.handlers.Values
      ensures net.Has(this) && Finished(old(net.State()), net.State(), fd, net.listenFd)
      ensures Reacted(old(net.State()), net.State(), fd, net.reply)
    {
      hide Core, Lagging, Going, Finished, AllHandled, Reacted, Joined;
      ghost var s0 := net.State();
      if !upgraded {
        OutputOf(s0, fd, net.listenFd);
        var goOn := Handshake(net);
        if !goOn {
          return;
        }
        ghost var s1 := net.State();
        WhileGoing(s0, s1, fd, net.listenFd);
        HandleFrames(net);
        GoingThenFinished(s0, s1, net.State(), fd, net.listenFd);
        ReactedByJoining(s0, s1, net.State(), fd, net.reply);
      } else {
        HandleFrames(net);
        ReactedByFrames(s0, net.State(), fd, net.reply);
      }
    }

    /** The first half of drive_io */
    method Handshake(net: Network) returns (goOn: bool)
      requires net.Has(this) && fd != net.listenFd && Core(net.State(), net.listenFd) && !upgraded
      requires fd in net.pendingCloses || Lagging(View())
      modifies net`pendingCloses, net`queuedIds, net`masks, net`wsClients, net.handlers.Values
      ensures net.Has(this)
      ensures goOn ==> upgraded && Going(old(net.State()), net.State(), fd, net.listenFd)
      ensures !goOn ==>
                && Finished(old(net.State()), net.State(), fd, net.listenFd)
                && Reacted(old(net.State()), net.State(), fd, net.reply)
      ensures goOn ==> Joined(old(net.State()), net.State(), fd, net.reply)
      ensures goOn <==> GoodRequest(old(readBuf))
      ensures !goOn ==> net.pendingCloses == old(net.pendingCloses) + if BadRequest(old(readBuf)) then [fd] else []
    {
      hide Core, Lagging, Going, Finished, FindFrom, Accepts, Reacted, Admitted, GoodRequest, BadRequest;
      goOn := false;
      VerdictInBytes(readBuf);
      ghost var s0 := net.State();
      assert s0.conns[fd] == View();
      if |readBuf| > MAX_HANDSHAKE {
        Refuse(net, readBuf);
        ReactedByRefusal(s0, net.State(), fd, s0.conns[fd].readBuf, net.reply);
        return;
      }
      var r := FindFrom(readBuf, 0);
      if r.None? {
        FinishedBeforeHeader(net.State(), fd, net.listenFd);
        ReactedNotYet(s0, fd, net.reply);
        return;
      }
      var headers, rest := readBuf[..r.at + 4], readBuf[r.at + 4..];
      if !Accepts(headers) {
        Refuse(net, rest);
        ReactedByRefusal(s0, net.State(), fd, rest, net.reply);
        return;
      }
      Accept(net, headers, rest, r.at);
      goOn := true;
    }

    /** The connection is queued, with `rest` left in its buffer. */
    method Refuse(net: Network, rest: bytes)
      requires net.Has(this) && fd != net.listenFd && Core(net.State(), net.listenFd)
      modifies net`pendingCloses, net`queuedIds, this`readBuf
      ensures net.Has(this) && Finished(old(net.State()), net.State(), fd, net.listenFd)
      ensures var s := old(net.State());
        net.State() == Queue(s.(conns := s.conns[fd := s.conns[fd].(readBuf := rest)]), fd)
    {
      hide Core, Finished;
      ghost var s0 := net.State();
      readBuf := rest;
      net.OneChanged(this);
      net.QueueClose(fd, id);
      FinishedByRefusal(s0, net.State(), fd, View(), net.listenFd);
    }

    method Greet(net: Network, response: Reply)
      requires net.Has(this) && fd != net.listenFd
      modifies `writeBuf, `hello, `frames, `dropped
      modifies net`pendingCloses, net`queuedIds, net`masks, net`wsClients
      ensures net.Has(this)
      ensures var s := old(net.State());
        net.State() == Append(s, fd, Response(response), true).(clients := s.clients + {fd})
    {
      hide Append;
      AppendOutgoing(net, response, true, Response(response));
      net.RegisterWsClient(fd);
    }

    /** The response goes out and the connection joins the broadcast set. */
    method Accept(net: Network, headers: bytes, rest: bytes, ghost p: nat)
      requires net.Has(this) && fd != net.listenFd && Core(net.State(), net.listenFd) && !upgraded
      requires fd in net.pendingCloses || Lagging(View())
      requires FindFrom(readBuf, 0) == Some(p) && headers == readBuf[..p + 4] && rest == readBuf[p + 4..]
      requires Accepts(headers)
      modifies net`pendingCloses, net`queuedIds, net`masks, net`wsClients, net.handlers.Values
      ensures net.Has(this) && upgraded && Going(old(net.State()), net.State(), fd, net.listenFd)
      ensures hello == net.reply(headers)
      ensures net.State() == Admitted(old(net.State()), fd, p, net.reply(headers))
    {
      hide Core, Lagging, Going, FindFrom, Accepts, Append;
      ghost var s0 := net.State();
      readBuf, upgraded, regAt := rest, true, |net.texts|;
      net.OneChanged(this);
      var response := net.reply(headers);
      Greet(net, response);
      GoingByUpgrade(s0, net.State(), fd, p, response, net.listenFd);
      assert net.State().conns[fd] == View();
    }

    /** flush_writes: `sends` are the results of send, one after the other; the last one stays. */
    method FlushWrites(net: Network, sends: seq<Send>)
      requires net.Has(this)
      modifies `writeBuf, `sent, net`pendingCloses, net`queuedIds
      ensures net.Has(this) && Flushed(old(net.State()), net.State(), fd, View())
      ensures var r := Flush(old(writeBuf), sends, 0);
        writeBuf == r.0 && net.pendingCloses == old(net.pendingCloses) + if r.1 then [fd] else []
    {
      var k := 0;
      while writeBuf != []
        invariant k <= |sends| && Flush(old(writeBuf), sends, 0) == Flush(writeBuf, sends, k)
        invariant old(sent) <= sent
        invariant sent + writeBuf == old(sent) + old(writeBuf) && |writeBuf| <= |old(writeBuf)|
        invariant net.pendingCloses == old(net.pendingCloses) && net.queuedIds == old(net.queuedIds)
        decreases |sends| - k
      {
        if k == |sends| || sends[k] == WouldBlock {
          break;
        }
        var n := if sends[k].Sent? then Min(sends[k].n, |writeBuf|) else 0;
        if n == 0 {
          net.QueueClose(fd, id);
          break;
        }
        sent, writeBuf := sent + writeBuf[..n], writeBuf[n..];
        k := k + 1;
      }
      net.OneChanged(this);
    }
  }

  class Network {
    const listenFd: int
    const reply: bytes -> Reply
    var handlers: map<int, Handler>
    var wsClients: set<int>
    var pendingCloses: seq<int>
    var masks: map<int, bool>
    ghost var queuedIds: seq<nat>
    ghost var texts: seq<Frame>
    ghost var nextId: nat
    ghost var closed: seq<nat>

    /** init: the listener is filed like any other descriptor. */
    constructor (listenFd: int, reply: bytes -> Reply)
      requires listenFd >= 0
      ensures Linked() && Inv(State(), listenFd) && this.listenFd == listenFd && this.reply == reply
      ensures texts == [] && closed == []
    {
      var h := new Handler(listenFd, 0);
      this.listenFd, this.reply := listenFd, reply;
      handlers, masks := map[listenFd := h], map[listenFd := false];
      wsClients, pendingCloses, queuedIds, texts, nextId, closed := {}, [], [], [], 1, [];
      new;
      assert Driven(NewConn(0)) && Output(NewConn(0));
      assert State().conns == map[listenFd := NewConn(0)];
    }

    /** No handler in the map has been deleted, and each is filed under its descriptor. */
    ghost predicate Linked()
      reads `handlers, handlers.Values
    {
      forall fd :: fd in handlers ==> fd >= 0 && handlers[fd].fd == fd && handlers[fd].alive
    }

    ghost predicate Has(h: Handler)
      reads `handlers, handlers.Values
    {
      Linked() && h.fd in handlers && handlers[h.fd] == h
    }

    ghost function Views(): (m: map<int, Conn>)
      reads `handlers, handlers.Values
    {
      map fd | fd in handlers :: handlers[fd].View()
    }

    ghost function State(): Net
      reads this, handlers.Values
    {
      Net(Views(), wsClients, pendingCloses, queuedIds, masks, texts, nextId, closed)
    }

    /** If only one handler has changed, only its entry has. */
    twostate lemma OneChanged(h: Handler)
      requires old(Has(h)) && handlers == old(handlers) && h.alive
      requires forall g :: g in handlers.Values && g != h ==> unchanged(g)
      ensures Has(h) && Views() == old(Views())[h.fd := h.View()]
    {
      forall fd | fd in handlers && fd != h.fd
        ensures handlers[fd].alive && handlers[fd].View() == old(handlers[fd].View())
      {
        assert handlers[fd] in handlers.Values && handlers[fd] != h;
      }
    }

    /** A handler has been filed under a new descriptor. */
    twostate lemma OneAdded(fd: int, new h: Handler)
      requires old(Linked()) && fd >= 0 && fd !in old(handlers) && handlers == old(handlers)[fd := h]
      requires h.fd == fd && h.alive
      requires forall g :: g in old(handlers.Values) ==> unchanged(g)
      ensures Linked() && Views() == old(Views())[fd := h.View()]
    {
      forall g | g in old(handlers) ensures handlers[g].alive && handlers[g].View() == old(handlers[g].View()) {
        assert old(handlers[g]) in old(handlers.Values);
      }
    }

    /** A handler has been deleted and is no longer filed. */
    twostate lemma OneGone(fd: int, new h: Handler)
      requires old(Linked()) && fd in old(handlers) && old(handlers[fd]) == h && handlers == old(handlers) - {fd}
      requires forall g :: g in old(handlers.Values) && g != h ==> unchanged(g)
      ensures Linked() && Views() == old(Views()) - {fd}
    {
      forall g | g in handlers
        ensures handlers[g] != h && handlers[g].alive && handlers[g].View() == old(handlers[g].View())
      {
        assert old(handlers[g].fd) == g;
        assert handlers[g] in old(handlers.Values);
      }
    }

    /** queue_close */
    method QueueClose(fd: int, ghost id: nat)
      modifies `pendingCloses, `queuedIds
      ensures if fd < 0 then pendingCloses == old(pendingCloses) && queuedIds == old(queuedIds)
              else pendingCloses == old(pendingCloses) + [fd] && queuedIds == old(queuedIds) + [id]
    {
      if fd < 0 {
        return;
      }
      pendingCloses := pendingCloses + [fd];
      queuedIds := queuedIds + [id];
    }

    /** register_ws_client */
    method RegisterWsClient(fd: int)
      requires fd != listenFd
      modifies `wsClients
      ensures wsClients == old(wsClients) + {fd}
    {
      wsClients := wsClients + {fd};
    }

    /** update_handler_events */
    method UpdateHandlerEvents(fd: int)
      modifies `masks
      ensures masks == if fd != listenFd && fd in handlers then old(masks)[fd := handlers[fd].writeBuf != []] else old(masks)
    {
      if fd == listenFd {
        return;
      }
      if fd !in handlers {
        return;
      }
      masks := masks[fd := handlers[fd].writeBuf != []];
    }

    /** The first loop of broadcast_ws_binary, in whatever order the set is walked */
    method AppendToAll(exceptFd: int, data: bytes, ghost f: Frame) returns (toRefresh: seq<int>)
      requires Linked() && ServerFrame(f) && data == Wire(f)
      requires (forall fd :: fd in wsClients ==> fd in handlers) && AppendedTo(State(), State(), {}, f, [])
      modifies `pendingCloses, `queuedIds, `masks, handlers.Values
      ensures handlers == old(handlers) && Linked()
      ensures AppendedTo(old(State()), State(), old(wsClients) - {exceptFd}, f, toRefresh)
    {
      hide *;
      ghost var s0 := State();
      toRefresh := [];
      var todo := wsClients;
      ghost var done: set<int> := {};
      while todo != {}
        invariant handlers == old(handlers) && Linked() && wsClients == old(wsClients) && todo <= wsClients
        invariant done == wsClients - todo - {exceptFd}
        invariant AppendedTo(s0, State(), done, f, toRefresh)
        decreases |todo|
      {
        var cfd := Pick(todo);
        todo := todo - {cfd};
        if cfd != exceptFd && cfd in handlers {
          toRefresh := AppendToOne(cfd, data, f, toRefresh, s0, done);
          done := done + {cfd};
        }
      }
      assert done == old(wsClients) - {exceptFd};
    }

    method AppendToOne(cfd: int, data: bytes, ghost f: Frame, toRefresh0: seq<int>, ghost s0: Net, ghost done: set<int>)
      returns (toRefresh: seq<int>)
      requires Linked() && ServerFrame(f) && data == Wire(f) && cfd in handlers && cfd !in done
      requires AppendedTo(s0, State(), done, f, toRefresh0)
      modifies `pendingCloses, `queuedIds, `masks, handlers.Values
      ensures Linked() && AppendedTo(s0, State(), done + {cfd}, f, toRefresh)
    {
      assert cfd in State().conns;
      hide Wire, ServerFrame, QueueGrew, AppendedTo;
      var h := handlers[cfd];
      var wasEmpty := h.writeBuf == [];
      ghost var s := State();
      assert s.conns[cfd] == h.View();
      h.AppendOutgoing(this, data, false, Framed(f));
      toRefresh := if wasEmpty && h.writeBuf != [] then toRefresh0 + [cfd] else toRefresh0;
      assert State().conns[cfd] == h.View();
      AppendStep(s0, s, State(), done, cfd, f, toRefresh0, toRefresh);
    }

    /** The second loop of broadcast_ws_binary */
    method RefreshAll(toRefresh: seq<int>)
      requires forall fd :: fd in toRefresh ==> fd in handlers && fd != listenFd
      modifies `masks
      ensures masks == Refreshed(old(masks), Views(), toRefresh)
    {
      for i := 0 to |toRefresh|
        invariant masks == Refreshed(old(masks), Views(), toRefresh[..i])
      {
        UpdateHandlerEvents(toRefresh[i]);
        assert toRefresh[..i + 1][..i] == toRefresh[..i];
      }
      assert toRefresh[..|toRefresh|] == toRefresh;
    }

    /** broadcast_ws_binary */
    method BroadcastWsBinary(exceptFd: int, data: bytes, ghost f: Frame)
      requires Linked() && ServerFrame(f) && data == Wire(f)
      requires (forall fd :: fd in wsClients ==> fd in handlers) && listenFd !in wsClients
      requires |pendingCloses| == |queuedIds|
      requires MasksFresh(State())
      modifies `pendingCloses, `queuedIds, `masks, handlers.Values
      ensures handlers == old(handlers) && Linked()
      ensures Broadcast(old(State()), State(), old(wsClients) - {exceptFd}, f)
    {
      hide Wire, Push, ServerFrame, MasksFresh, MasksFit, PushTo, Losing, Linked, Refreshed;
      NobodyYet(State(), f);
      var toRefresh := AppendToAll(exceptFd, data, f);
      RefreshIsEnough(old(State()), Views(), old(wsClients) - {exceptFd}, f, toRefresh);
      RefreshAll(toRefresh);
    }

    // ------------------------------------------------------------------------ events

    /** ctl_event on an accepted descriptor */
    method CtlAdd(fd: int)
      requires Linked() && Inv(State(), listenFd) && fd >= 0 && fd !in handlers
      modifies `handlers, `masks, `nextId
      ensures handlers.Keys == old(handlers.Keys) + {fd} && fresh(handlers.Values - old(handlers.Values))
      ensures forall g :: g in old(handlers) ==> handlers[g] == old(handlers)[g]
      ensures Linked() && Inv(State(), listenFd) && State() == Open(old(State()), fd)
    {
      hide Inv, Open;
      var h := new Handler(fd, nextId);
      handlers := handlers[fd := h];
      masks := masks[fd := false];
      nextId := nextId + 1;
      OneAdded(fd, h);
      Opened(old(State()), State(), fd);
      OpenKeepsInv(old(State()), fd, listenFd);
    }

    /** The accept loop */
    method OnIncoming(fds: seq<int>)
      requires Linked() && Inv(State(), listenFd) && AllNew(handlers.Keys, fds)
      modifies `handlers, `masks, `nextId
      ensures Linked() && Inv(State(), listenFd)
      ensures handlers.Keys == old(handlers.Keys) + (set fd | fd in fds)
      ensures fresh(handlers.Values - old(handlers.Values))
      ensures texts == old(texts) && closed == old(closed)
      ensures forall g :: g in old(handlers) ==> handlers[g] == old(handlers)[g]
    {
      hide Inv;
      for i := 0 to |fds|
        invariant Linked() && Inv(State(), listenFd)
        invariant handlers.Keys == old(handlers.Keys) + (set fd | fd in fds[..i])
        invariant fresh(handlers.Values - old(handlers.Values))
        invariant texts == old(texts) && closed == old(closed)
        invariant forall g :: g in old(handlers) ==> handlers[g] == old(handlers)[g]
      {
        CtlAdd(fds[i]);
      }
      assert fds[..|fds|] == fds;
    }

    /** EPOLLERR or EPOLLHUP */
    method OnBroken(fd: int)
      requires Linked() && Inv(State(), listenFd) && fd in handlers && fd != listenFd
      modifies `pendingCloses, `queuedIds
      ensures Inv(State(), listenFd) && State() == Queue(old(State()), fd)
    {
      hide Inv;
      ghost var s := State();
      QueueClose(fd, handlers[fd].id);
      QueueKeepsInv(s, fd, listenFd);
    }

    /** The read loop of an EPOLLIN event: true when the connection must be closed */
    method ReadAll(h: Handler, chunks: seq<bytes>, eof: bool) returns (closeMe: bool, ghost data: bytes)
      requires Has(h)
      modifies h`readBuf, h`received
      ensures Has(h)
      ensures State() == ReadInto(old(State()), h.fd, data)
      ensures !closeMe ==> data == Concat(chunks)
      ensures closeMe == (eof || (Concat(chunks) != [] && |old(h.readBuf)| + |Concat(chunks)| > MAX_READ))
    {
      closeMe, data := eof, [];
      for i := 0 to |chunks|
        invariant data == Concat(chunks[..i]) && closeMe == eof
        invariant data == [] || |old(h.readBuf)| + |data| <= MAX_READ
        invariant h.readBuf == old(h.readBuf) + data && h.received == old(h.received) + data
      {
        assert chunks[..i + 1][..i] == chunks[..i];
        var ok := h.AppendRead(chunks[i]);
        if !ok {
          ConcatGrows(chunks, i + 1);
          closeMe := true;
          break;
        }
        data := data + chunks[i];
      }
      assert chunks[..|chunks|] == chunks;
      OneChanged(h);
    }

    /** EPOLLIN: read everything there is, then drive the connection. */
    method OnReadable(fd: int, chunks: seq<bytes>, eof: bool)
      requires Linked() && Inv(State(), listenFd) && fd in handlers && fd != listenFd
      modifies `pendingCloses, `queuedIds, `masks, `texts, `wsClients, handlers.Values
      ensures handlers == old(handlers) && Linked() && Inv(State(), listenFd)
      ensures Logged(old(State()), State(), fd) && closed == old(closed)
      ensures eof ==> fd in pendingCloses
      ensures fd !in pendingCloses ==> handlers[fd].received == old(handlers[fd].received) + Concat(chunks)
      ensures ReadAndDriven(old(State()), State(), fd, chunks, eof, reply)
    {
      hide Inv, Core, AllDriven, Lagging, Finished, OthersKept, Logged, Reacted, Concat;
      var h := handlers[fd];
      ghost var s0 := State();
      var closeMe, data := ReadAll(h, chunks, eof);
      ghost var s1 := State();
      ReadKeeps(s0, s1, fd, data, listenFd);
      LoggedNothing(s0, s1, fd);
      if closeMe {
        QueueClose(fd, h.id);
        QueuedIsInv(s1, fd, listenFd);
        LoggedNothing(s0, State(), fd);
        return;
      }
      h.DriveIo(this);
      FinishedKeeps(s1, State(), fd, listenFd);
      LoggedTwice(s0, s1, State(), fd);
    }

    /** EPOLLOUT: send what can be sent, and stop waiting when nothing is left. */
    method OnWritable(fd: int, sends: seq<Send>)
      requires Linked() && Inv(State(), listenFd) && fd in handlers && fd != listenFd
      modifies `pendingCloses, `queuedIds, `masks, handlers.Values
      ensures handlers == old(handlers) && Linked() && Inv(State(), listenFd)
      ensures texts == old(texts) && closed == old(closed)
      ensures SentSome(old(State()), State(), fd, sends)
    {
      hide Inv, Flush;
      var h := handlers[fd];
      ghost var s0 := State();
      h.FlushWrites(this, sends);
      ghost var s1 := State();
      UpdateHandlerEvents(fd);
      FlushKeepsInv(s0, s1, State(), fd, h.View(), listenFd);
    }

    /** One event of a round */
    method HandleEvent(e: Event)
      requires Linked() && Inv(State(), listenFd) && Legal(handlers.Keys, listenFd, [e])
      modifies `handlers, `nextId, `pendingCloses, `queuedIds, `masks, `texts, `wsClients, handlers.Values
      ensures Linked() && Inv(State(), listenFd)
      ensures handlers.Keys == old(handlers.Keys) + if e.Incoming? then (set fd | fd in e.accepted) else {}
      ensures fresh(handlers.Values - old(handlers.Values))
      ensures old(texts) <= texts && closed == old(closed)
      ensures EventDone(old(State()), State(), e, reply)
    {
      hide Inv, ReadAndDriven, SentSome;
      match e
      case Incoming(fds) => OnIncoming(fds);
      case Broken(fd) => OnBroken(fd);
      case Readable(fd, chunks, eof) => OnReadable(fd, chunks, eof);
      case Writable(fd, sends) => OnWritable(fd, sends);
    }

    /** ctl_event on a descriptor to be closed: the handler is deleted and leaves every table. */
    method CtlDel(fd: int, h: Handler)
      requires Linked() && fd in handlers && handlers[fd] == h
      modifies `handlers, `wsClients, `masks, `closed, h`alive
      ensures Linked() && handlers == old(handlers) - {fd}
      ensures State() == CloseOne(old(State()), fd)
    {
      wsClients := wsClients - {fd};
      closed := closed + [h.id];
      h.alive := false;
      handlers := handlers - {fd};
      masks := masks - {fd};
      OneGone(fd, h);
    }

    method CloseAll(fds: seq<int>)
      requires Linked() && Ascending(fds) && forall fd :: fd in fds ==> fd in State().conns
      requires ClosedSoFar(State(), State(), [])
      modifies `handlers, `wsClients, `masks, `closed, handlers.Values
      ensures Linked() && ClosedSoFar(old(State()), State(), fds)
      ensures forall h :: h in handlers.Values ==> h in old(handlers.Values)
    {
      hide ClosedSoFar, CloseOne, Ascending;
      ghost var s0 := State();
      for i := 0 to |fds|
        invariant Linked() && ClosedSoFar(s0, State(), fds[..i])
        invariant forall h :: h in handlers.Values ==> h in old(handlers.Values)
      {
        ghost var s := State();
        NotClosedYet(s0, s, fds, i);
        if fds[i] in handlers {
          CtlDel(fds[i], handlers[fds[i]]);
          CloseStep(s0, s, State(), fds, i);
        }
      }
      assert fds[..|fds|] == fds;
    }

    /** process_close_queue: every connection queued is closed once, however often it was queued,
        and no other. */
    method ProcessCloseQueue()
      requires Linked() && Inv(State(), listenFd)
      modifies `handlers, `wsClients, `masks, `closed, `pendingCloses, `queuedIds, handlers.Values
      ensures Linked() && Inv(State(), listenFd) && Drained(old(State()), State())
      ensures forall h :: h in handlers.Values ==> h in old(handlers.Values)
    {
      hide Inv, ClosedSoFar, Drained;
      ghost var s0 := State();
      if pendingCloses == [] {
        NothingToClose(s0, listenFd);
        return;
      }
      var fds := SortUnique(pendingCloses);
      AllQueuedAreOpen(s0, listenFd);
      NoneClosedYet(s0);
      CloseAll(fds);
      ghost var s1 := State();
      pendingCloses, queuedIds := [], [];
      ClosedIsDrained(s0, s1, State(), fds, listenFd);
      DrainedIsInv(s0, State(), listenFd);
    }

    /** One round: the events that epoll_wait returned, and then the close queue. Handlers are
        deleted only at its end, so no event meets a deleted one: in the state `last` after all
        events nobody has gone yet, and then exactly those queued go. */
    method Round(events: seq<Event>) returns (ghost last: Net)
      requires Linked() && Inv(State(), listenFd) && Legal(handlers.Keys, listenFd, events)
      modifies this, handlers.Values
      ensures Linked() && Inv(State(), listenFd) && pendingCloses == []
      ensures fresh(handlers.Values - old(handlers.Values))
      ensures old(texts) <= texts && old(closed) <= closed
      ensures last.closed == old(closed) && (forall fd :: fd in old(handlers) ==> fd in last.conns)
      ensures Drained(last, State())
    {
      hide Inv, Legal, Drained, EventDone;
      for i := 0 to |events|
        invariant Linked() && Inv(State(), listenFd) && Legal(handlers.Keys, listenFd, events[i..])
        invariant fresh(handlers.Values - old(handlers.Values))
        invariant old(texts) <= texts && closed == old(closed)
        invariant forall fd :: fd in old(handlers) ==> fd in handlers
      {
        LegalSplits(handlers.Keys, listenFd, events[i..]);
        assert events[i..][1..] == events[i + 1..] && events[i..][0] == events[i];
        HandleEvent(events[i]);
      }
      last := State();
      ProcessCloseQueue();
      DrainedKeeps(last, State());
    }

    /** epoll_loop, for any number of rounds and any behaviour of the kernel */
    method EpollLoop(rounds: nat)
      requires Linked() && Inv(State(), listenFd)
      modifies this, handlers.Values
      ensures Linked() && Inv(State(), listenFd)
      ensures old(texts) <= texts && old(closed) <= closed
    {
      hide Inv, Legal;
      for i := 0 to rounds
        invariant Linked() && Inv(State(), listenFd)
        invariant fresh(handlers.Values - old(handlers.Values))
        invariant old(texts) <= texts && old(closed) <= closed
      {
        var events: seq<Event> := *;
        if Legal(handlers.Keys, listenFd, events) {
          ghost var last := Round(events);
        }
      }
    }
  }
}
