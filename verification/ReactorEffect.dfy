/**
  What the server does to the output of every connection when one of them is driven: which
  frames it queues where, and which connections it gives up, and for what reason.
 */
module ReactorEffect {
  import opened Bytes
  import opened WsFrame
  import opened ReactorState

  // ------------------------------------------------ batched and immediate updates

  /** append_outgoing with an immediate update of the mask, for one client after the other */
  ghost function AppendEach(s: Net, fds: seq<int>, f: Frame): (r: Net)
    requires ServerFrame(f) && forall fd :: fd in fds ==> fd in s.conns
    ensures forall fd :: fd in r.conns <==> fd in s.conns
    decreases |fds|
  {
    if fds == [] then s
    else Append(AppendEach(s, fds[..|fds| - 1], f), fds[|fds| - 1], Framed(f), true)
  }

  predicate Distinct(fds: seq<int>) { forall j, k :: 0 <= j < k < |fds| ==> fds[j] != fds[k] }

  lemma {:induction false} AppendEachIsBroadcast(s: Net, fds: seq<int>, f: Frame)
    requires ServerFrame(f) && Distinct(fds) && MasksFresh(s) && |s.pending| == |s.queuedIds|
    requires forall fd :: fd in fds ==> fd in s.conns
    ensures Broadcast(s, AppendEach(s, fds, f), (set fd | fd in fds), f)
    decreases |fds|
  {
    hide Wire, ServerFrame, Broadcast, Append;
    if fds == [] {
      BroadcastToNobody(s, f);
      assert (set fd | fd in fds) == {};
    } else {
      var k := |fds| - 1;
      var before, last := fds[..k], fds[k];
      AppendEachIsBroadcast(s, before, f);
      var s1 := AppendEach(s, before, f);
      AfterBroadcast(s, s1, (set fd | fd in before), f);
      AppendIsBroadcast(s1, last, f);
      BroadcastTwice(s, s1, AppendEach(s, fds, f), (set fd | fd in before), {last}, f);
      assert fds == before + [last];
      assert (set fd | fd in before) + {last} == (set fd | fd in fds);
    }
  }

  lemma BroadcastToNobody(s: Net, f: Frame)
    requires WsFrame.Valid(f) && MasksFresh(s) && |s.pending| == |s.queuedIds|
    ensures Broadcast(s, s, {}, f)
  {
  }

  lemma AfterBroadcast(s: Net, s': Net, to: set<int>, f: Frame)
    requires WsFrame.Valid(f) && Broadcast(s, s', to, f)
    ensures MasksFresh(s') && |s'.pending| == |s'.queuedIds|
    ensures forall fd :: fd in s'.conns <==> fd in s.conns
  {
  }

  /** Two states agree but for the order in which descriptors have been queued. */
  ghost predicate SameButOrder(a: Net, b: Net) {
    && a.conns == b.conns && a.clients == b.clients && a.texts == b.texts
    && (forall fd :: fd in a.masks <==> fd in b.masks)
    && (forall fd :: fd in a.masks ==> a.masks[fd] == b.masks[fd])
    && (forall fd :: fd in a.pending <==> fd in b.pending)
  }

  lemma QueuesAgree(s: Net, a: Net, b: Net, lost: set<int>)
    requires QueueGrew(s, a, lost) && QueueGrew(s, b, lost)
    ensures forall fd :: fd in a.pending <==> fd in b.pending
  {
    assert a.pending == s.pending + a.pending[|s.pending|..];
    assert b.pending == s.pending + b.pending[|s.pending|..];
  }

  lemma BroadcastsAgree(s: Net, a: Net, b: Net, to: set<int>, f: Frame)
    requires WsFrame.Valid(f) && Broadcast(s, a, to, f) && Broadcast(s, b, to, f)
    ensures SameButOrder(a, b)
  {
    hide PushTo, Losing, QueueGrew, WsFrame.Valid;
    QueuesAgree(s, a, b, Losing(s.conns, to, f));
  }

  /** The broadcast with its one refresh at the end reaches the state of updating every mask at
      once: the same connections and masks, and the same descriptors queued. */
  lemma BatchedIsImmediate(s: Net, s': Net, to: set<int>, f: Frame, fds: seq<int>)
    requires ServerFrame(f) && Broadcast(s, s', to, f) && MasksFresh(s) && |s.pending| == |s.queuedIds|
    requires Distinct(fds) && to == (set fd | fd in fds) && forall fd :: fd in fds ==> fd in s.conns
    ensures SameButOrder(s', AppendEach(s, fds, f))
  {
    hide Broadcast, SameButOrder, ServerFrame, AppendEach;
    AppendEachIsBroadcast(s, fds, f);
    BroadcastsAgree(s, s', AppendEach(s, fds, f), to, f);
  }

  // ------------------------------------------------------- the effect of driving one

  /** The part of a connection that sending to it changes */
  datatype Out = Out(writeBuf: bytes, frames: seq<Frame>, dropped: bool)

  function OutOf(c: Conn): Out { Out(c.writeBuf, c.frames, c.dropped) }

  predicate Overflows(o: Out, f: Frame)
    requires WsFrame.Valid(f)
  {
    |o.writeBuf| + |Wire(f)| > MAX_WRITE
  }

  function PushOut(o: Out, f: Frame): Out
    requires WsFrame.Valid(f)
  {
    if Overflows(o, f) then o.(dropped := true) else Out(o.writeBuf + Wire(f), o.frames + [f], o.dropped)
  }

  /** Whether a connection is sent something when a frame is handled: a text frame goes to
      every client, a pong to the `sender` of the ping. */
  predicate IsAnswered(client: bool, sender: bool, f: Frame) {
    |f.payload| <= MAX_PAYLOAD && if f.Opcode() == TEXT then client else f.Opcode() == PING && sender
  }

  /** What it is sent */
  function Answer(f: Frame): (a: Frame)
    ensures WsFrame.Valid(a)
  {
    Packed(if f.Opcode() == TEXT then TEXT else PONG, if |f.payload| <= MAX_PAYLOAD then f.payload else [])
  }

  /** The output of a connection after these frames have been handled */
  function Answered(o: Out, client: bool, sender: bool, frames: seq<Frame>): Out {
    if frames == [] then o
    else
      var p, f := Answered(o, client, sender, frames[..|frames| - 1]), frames[|frames| - 1];
      if IsAnswered(client, sender, f) then PushOut(p, Answer(f)) else p
  }

  /** It loses one of the answers at its write cap. */
  predicate Loses(o: Out, client: bool, sender: bool, frames: seq<Frame>) {
    frames != [] &&
    var before, f := frames[..|frames| - 1], frames[|frames| - 1];
    || Loses(o, client, sender, before)
    || (IsAnswered(client, sender, f) && Overflows(Answered(o, client, sender, before), Answer(f)))
  }

  lemma AnsweredSnoc(o: Out, client: bool, sender: bool, frames: seq<Frame>, f: Frame)
    ensures var p := Answered(o, client, sender, frames);
      && Answered(o, client, sender, frames + [f]) == (if IsAnswered(client, sender, f) then PushOut(p, Answer(f)) else p)
      && (Loses(o, client, sender, frames + [f]) <==>
            Loses(o, client, sender, frames) || (IsAnswered(client, sender, f) && Overflows(p, Answer(f))))
  {
    hide PushOut, Overflows, IsAnswered, Answer;
    assert (frames + [f])[..|frames|] == frames;
  }

  /** Connection `fd` has handled `frames` since state `s`: everyone's output is what answering
      them makes of it, and exactly those who lost an answer, and `fd` itself for a close frame,
      have been queued. */
  ghost predicate Effect(s: Net, s': Net, fd: int, frames: seq<Frame>) {
    && s.pending <= s'.pending && s'.clients == s.clients
    && (forall g :: g in s'.conns <==> g in s.conns)
    && (forall g :: g in s.conns ==>
          OutOf(s'.conns[g]) == Answered(OutOf(s.conns[g]), g in s.clients, g == fd, frames))
    && (forall g :: g in s'.pending[|s.pending|..] <==>
          g in s.conns && (Loses(OutOf(s.conns[g]), g in s.clients, g == fd, frames) || (g == fd && HasClose(frames))))
  }

  /** Only input fields have changed. */
  ghost predicate SameOutputs(s: Net, s': Net) {
    && s'.pending == s.pending && s'.clients == s.clients
    && (forall g :: g in s'.conns <==> g in s.conns)
    && (forall g :: g in s.conns ==> OutOf(s'.conns[g]) == OutOf(s.conns[g]))
  }

  lemma NoEffect(s: Net, s': Net, fd: int)
    requires SameOutputs(s, s')
    ensures Effect(s, s', fd, [])
  {
    assert s'.pending[|s.pending|..] == [];
  }

  /** One frame more */
  lemma OneMore(s: Net, s1: Net, s2: Net, s3: Net, fd: int, frames: seq<Frame>, f: Frame)
    requires Effect(s, s1, fd, frames) && SameOutputs(s1, s2) && fd in s2.conns && |f.payload| <= MAX_PAYLOAD
    requires HandledOne(s2, s3, fd, f.Opcode(), f.payload)
    ensures Effect(s, s3, fd, frames + [f])
  {
    hide HandledOne, Loses, Answered, IsAnswered, PushOut, Overflows, Answer, HasClose;
    OneEffect(s2, s3, fd, f);
    assert s3.pending[|s.pending|..] == s1.pending[|s.pending|..] + s3.pending[|s1.pending|..];
    forall g | g in s.conns
      ensures OutOf(s3.conns[g]) == Answered(OutOf(s.conns[g]), g in s.clients, g == fd, frames + [f])
      ensures Loses(OutOf(s.conns[g]), g in s.clients, g == fd, frames + [f]) <==>
              || Loses(OutOf(s.conns[g]), g in s.clients, g == fd, frames)
              || (IsAnswered(g in s.clients, g == fd, f) && Overflows(OutOf(s2.conns[g]), Answer(f)))
    {
      AnsweredSnoc(OutOf(s.conns[g]), g in s.clients, g == fd, frames, f);
    }
    HasCloseSnoc(frames, f);
  }

  lemma HasCloseSnoc(frames: seq<Frame>, f: Frame)
    ensures HasClose(frames + [f]) <==> HasClose(frames) || f.Opcode() == CLOSE
  {
    assert (frames + [f])[|frames|] == f;
    if HasClose(frames) {
      var k :| 0 <= k < |frames| && frames[k].Opcode() == CLOSE;
      assert (frames + [f])[k] == frames[k];
    }
  }

  /** What handling one frame does to everybody's output and to the queue */
  lemma OneEffect(s: Net, s': Net, fd: int, f: Frame)
    requires fd in s.conns && |f.payload| <= MAX_PAYLOAD && HandledOne(s, s', fd, f.Opcode(), f.payload)
    ensures s.pending <= s'.pending && s'.clients == s.clients
    ensures forall g :: g in s'.conns <==> g in s.conns
    ensures forall g :: g in s.conns ==>
              var o := OutOf(s.conns[g]);
              OutOf(s'.conns[g]) == if IsAnswered(g in s.clients, g == fd, f) then PushOut(o, Answer(f)) else o
    ensures forall g :: g in s'.pending[|s.pending|..] <==>
              && g in s.conns
              && ((IsAnswered(g in s.clients, g == fd, f) && Overflows(OutOf(s.conns[g]), Answer(f)))
                  || (g == fd && f.Opcode() == CLOSE))
  {
    hide Push, PushOut, MasksFit, Wire, Overflows;
    if f.Opcode() == TEXT {
      var a := Packed(TEXT, f.payload);
      assert Answer(f) == a;
      BroadcastOuts(s.(texts := s.texts + [a]), s', s.clients, a);
    } else if f.Opcode() == PING {
      assert Answer(f) == Packed(PONG, f.payload);
      BroadcastOuts(s, s', {fd}, Packed(PONG, f.payload));
    } else if f.Opcode() == CLOSE {
      assert s'.pending[|s.pending|..] == [fd];
    } else {
      assert s'.pending[|s.pending|..] == [];
    }
  }

  lemma BroadcastOuts(s: Net, s': Net, to: set<int>, f: Frame)
    requires WsFrame.Valid(f) && s'.conns == PushTo(s.conns, to, f) && QueueGrew(s, s', Losing(s.conns, to, f))
    ensures s.pending <= s'.pending
    ensures forall g :: g in s.conns ==>
              OutOf(s'.conns[g]) == if g in to then PushOut(OutOf(s.conns[g]), f) else OutOf(s.conns[g])
    ensures forall g :: g in s'.pending[|s.pending|..] <==>
              g in s.conns && g in to && Overflows(OutOf(s.conns[g]), f)
  {
    hide Wire;
  }

  // --------------------------------------------------------- the loop over the frames

  /** State `s` without the first frame in the buffer of `fd`, which is in `handled` instead */
  ghost function Taken(s: Net, fd: int): Net
    requires fd in s.conns && Parse(s.conns[fd].readBuf).Ok?
  {
    var c := s.conns[fd];
    var v := Parse(c.readBuf);
    s.(conns := s.conns[fd := c.(readBuf := c.readBuf[v.total..], handled := c.handled + [v.frame])])
  }

  /** The loop has handled `taken`; the rest of the frames are still in the buffer. */
  ghost predicate Underway(s: Net, s': Net, fd: int, taken: seq<Frame>) {
    && Effect(s, s', fd, taken) && fd in s.conns && fd in s'.conns
    && s'.conns[fd].handled == s.conns[fd].handled + taken
    && s'.conns[fd].upgraded == s.conns[fd].upgraded
    && var all, left := Split(s.conns[fd].readBuf), Split(s'.conns[fd].readBuf);
       all.frames == taken + left.frames && all.rest == left.rest
  }

  lemma UnderwayFirst(s: Net, fd: int)
    requires fd in s.conns
    ensures Underway(s, s, fd, [])
  {
    hide Effect, Split;
    NoEffect(s, s, fd);
    assert s.conns[fd].handled + [] == s.conns[fd].handled;
    var all := Split(s.conns[fd].readBuf);
    assert [] + all.frames == all.frames;
  }

  lemma UnderwayNext(s: Net, s1: Net, s2: Net, fd: int, taken: seq<Frame>)
    requires Underway(s, s1, fd, taken) && Parse(s1.conns[fd].readBuf).Ok?
    requires var f := Parse(s1.conns[fd].readBuf).frame;
      HandledOne(Taken(s1, fd), s2, fd, f.Opcode(), f.payload)
    requires fd in s2.conns && SameInput(Taken(s1, fd).conns[fd], s2.conns[fd])
    ensures Underway(s, s2, fd, taken + [Parse(s1.conns[fd].readBuf).frame])
  {
    hide Effect, HandledOne, Parse;
    var v := Parse(s1.conns[fd].readBuf);
    OneMore(s, s1, Taken(s1, fd), s2, fd, taken, v.frame);
    var rest := Split(s1.conns[fd].readBuf[v.total..]).frames;
    assert taken + ([v.frame] + rest) == (taken + [v.frame]) + rest;
    assert s.conns[fd].handled + (taken + [v.frame]) == (s.conns[fd].handled + taken) + [v.frame];
  }

  /** Everything complete in the buffer has been handled: the output is what answering it makes
      of it, and queued are those who lost an answer and, for a close frame or a faulty rest,
      `fd` itself. */
  ghost predicate AllHandled(s: Net, s': Net, fd: int)
    requires fd in s.conns
  {
    var t := Split(s.conns[fd].readBuf);
    && s.pending <= s'.pending && s'.clients == s.clients
    && (forall g :: g in s'.conns <==> g in s.conns)
    && (forall g :: g in s.conns ==>
          OutOf(s'.conns[g]) == Answered(OutOf(s.conns[g]), g in s.clients, g == fd, t.frames))
    && (forall g :: g in s'.pending[|s.pending|..] <==>
          && g in s.conns
          && (Loses(OutOf(s.conns[g]), g in s.clients, g == fd, t.frames)
              || (g == fd && (HasClose(t.frames) || Parse(t.rest).Error?))))
    && s'.conns[fd].handled == s.conns[fd].handled + t.frames
    && s'.conns[fd].upgraded == s.conns[fd].upgraded
  }

  lemma AllHandledNow(s: Net, s': Net, fd: int, taken: seq<Frame>)
    requires Underway(s, s', fd, taken) && Parse(s'.conns[fd].readBuf).NeedMore?
    ensures AllHandled(s, s', fd)
  {
    hide Answered, Loses, HasClose, Parse;
    assert taken + [] == taken;
  }

  lemma AllHandledButRest(s: Net, s1: Net, s': Net, fd: int, taken: seq<Frame>)
    requires Underway(s, s1, fd, taken) && Parse(s1.conns[fd].readBuf).Error? && s' == Queue(s1, fd)
    ensures AllHandled(s, s', fd)
  {
    hide Answered, Loses, HasClose, Parse;
    assert taken + [] == taken;
    assert s'.pending[|s.pending|..] == s1.pending[|s.pending|..] + [fd];
  }

  // -------------------------------------------------------------- driving a connection

  /** What a connection makes of its buffer when it is driven: the frames it handles, whether
      it becomes a client, and whether it gives itself up. */
  datatype Reaction = Reaction(frames: seq<Frame>, joins: bool, givesUp: bool)

  ghost predicate Fatal(t: Stream) { HasClose(t.frames) || Parse(t.rest).Error? }

  ghost function React(c: Conn): Reaction {
    if c.upgraded then
      Reaction(Split(c.readBuf).frames, false, Fatal(Split(c.readBuf)))
    else if |c.readBuf| > MAX_HANDSHAKE then Reaction([], false, true)
    else
      match FindFrom(c.readBuf, 0)
      case None => Reaction([], false, false)
      case Some(p) =>
        if !Accepts(c.readBuf[..p + 4]) then Reaction([], false, true)
        else
          var t := Split(c.readBuf[p + 4..]);
          Reaction(t.frames, true, Fatal(t))
  }

  /** The 101 response to a request: not empty, and it fits its buffer of 1024 bytes. */
  type Reply = b: bytes | 0 < |b| < 1024 witness [0]

  /** The response to the headers in the buffer */
  ghost function Greeting(c: Conn, reply: bytes -> Reply): bytes {
    match FindFrom(c.readBuf, 0)
    case None => []
    case Some(p) => reply(c.readBuf[..p + 4])
  }

  /** The output of connection `g` before the frames are handled: the greeting, if it has just
      become a client */
  ghost function StartOut(s: Net, fd: int, g: int, reply: bytes -> Reply): Out
    requires fd in s.conns && g in s.conns
  {
    if g == fd && React(s.conns[fd]).joins then Out(Greeting(s.conns[fd], reply), [], false) else OutOf(s.conns[g])
  }

  /**
    The whole effect of driving connection `fd`. A descriptor is queued for closing exactly if
    it lost an answer at its write cap, or is `fd` and its handshake is too long or refused, it
    has handled a close frame, or the rest of its buffer is a faulty header.
   */
  ghost predicate Reacted(s: Net, s': Net, fd: int, reply: bytes -> Reply)
    requires fd in s.conns
  {
    var r := React(s.conns[fd]);
    && s.pending <= s'.pending
    && (forall g :: g in s'.clients <==> g in s.clients || (r.joins && g == fd))
    && (forall g :: g in s'.conns <==> g in s.conns)
    && (forall g :: g in s.conns ==>
          OutOf(s'.conns[g]) == Answered(StartOut(s, fd, g, reply), g in s'.clients, g == fd, r.frames))
    && (forall g :: g in s'.pending[|s.pending|..] <==>
          && g in s.conns
          && (Loses(StartOut(s, fd, g, reply), g in s'.clients, g == fd, r.frames) || (g == fd && r.givesUp)))
    && s'.conns[fd].handled == s.conns[fd].handled + r.frames
    && s'.conns[fd].upgraded == (s.conns[fd].upgraded || r.joins)
  }

  lemma ReactedByFrames(s: Net, s': Net, fd: int, reply: bytes -> Reply)
    requires fd in s.conns && s.conns[fd].upgraded && AllHandled(s, s', fd)
    ensures Reacted(s, s', fd, reply)
  {
    hide Answered, Loses, HasClose, Parse, Split;
  }

  lemma ReactedNotYet(s: Net, fd: int, reply: bytes -> Reply)
    requires fd in s.conns && !s.conns[fd].upgraded && |s.conns[fd].readBuf| <= MAX_HANDSHAKE
    requires FindFrom(s.conns[fd].readBuf, 0).None?
    ensures Reacted(s, s, fd, reply)
  {
    hide HasClose, Parse, Split, FindFrom;
    assert s.pending[|s.pending|..] == [];
    assert s.conns[fd].handled + [] == s.conns[fd].handled;
  }

  lemma ReactedByRefusal(s: Net, s': Net, fd: int, rest: bytes, reply: bytes -> Reply)
    requires fd in s.conns && !s.conns[fd].upgraded
    requires
      || |s.conns[fd].readBuf| > MAX_HANDSHAKE
      || var r := FindFrom(s.conns[fd].readBuf, 0); r.Some? && !Accepts(s.conns[fd].readBuf[..r.at + 4])
    requires s' == Queue(s.(conns := s.conns[fd := s.conns[fd].(readBuf := rest)]), fd)
    ensures Reacted(s, s', fd, reply)
  {
    hide HasClose, Parse, Split, FindFrom, Accepts;
    assert s'.pending[|s.pending|..] == [fd];
    assert s.conns[fd].handled + [] == s.conns[fd].handled;
  }

  lemma OutputOf(s: Net, fd: int, listen: int)
    requires Core(s, listen) && fd in s.conns
    ensures Output(s.conns[fd])
  {
  }

  /** The state after an accepted handshake */
  ghost function Admitted(s: Net, fd: int, p: nat, text: bytes): Net
    requires fd in s.conns && text != [] && p + 4 <= |s.conns[fd].readBuf|
  {
    var c := s.conns[fd];
    var d := c.(readBuf := c.readBuf[p + 4..], upgraded := true, regAt := |s.texts|);
    Append(s.(conns := s.conns[fd := d]), fd, Response(text), true).(clients := s.clients + {fd})
  }

  lemma AdmittedOutputs(s: Net, fd: int, p: nat, text: bytes)
    requires fd in s.conns && 0 < |text| < 1024 && p + 4 <= |s.conns[fd].readBuf|
    requires Output(s.conns[fd]) && !s.conns[fd].upgraded
    ensures var t := Admitted(s, fd, p, text);
      && t.pending == s.pending && (forall g :: g in t.clients <==> g in s.clients || g == fd)
      && (forall g :: g in t.conns <==> g in s.conns)
      && (forall g :: g in s.conns && g != fd ==> t.conns[g] == s.conns[g])
      && OutOf(t.conns[fd]) == Out(text, [], false)
      && t.conns[fd].readBuf == s.conns[fd].readBuf[p + 4..]
      && t.conns[fd].handled == s.conns[fd].handled && t.conns[fd].upgraded
  {
    var c := s.conns[fd];
    assert c.sent + c.writeBuf == [];
    assert c.writeBuf == [] && c.frames == [] && !c.dropped;
    assert [] + text == text;
  }

  /** A handshake has been accepted. */
  ghost predicate Joined(s: Net, s': Net, fd: int, reply: bytes -> Reply) {
    && fd in s.conns && !s.conns[fd].upgraded && |s.conns[fd].readBuf| <= MAX_HANDSHAKE
    && var p := FindFrom(s.conns[fd].readBuf, 0);
       && p.Some?
       && var headers := s.conns[fd].readBuf[..p.at + 4];
          Accepts(headers) && s' == Admitted(s, fd, p.at, reply(headers))
  }

  lemma ReactedByJoining(s: Net, s1: Net, s': Net, fd: int, reply: bytes -> Reply)
    requires Joined(s, s1, fd, reply) && fd in s1.conns && Output(s.conns[fd])
    requires AllHandled(s1, s', fd)
    ensures Reacted(s, s', fd, reply)
  {
    hide Answered, Loses, HasClose, Parse, Split, FindFrom, Accepts, Output, Admitted;
    var p := FindFrom(s.conns[fd].readBuf, 0).at;
    AdmittedOutputs(s, fd, p, reply(s.conns[fd].readBuf[..p + 4]));
  }

  // --------------------------------------------------------------------- one event

  /** What reading `chunks` on connection `fd` leads to: it is queued at end of file and at the
      read cap, and is driven otherwise. */
  ghost predicate ReadAndDriven(s: Net, s': Net, fd: int, chunks: seq<bytes>, eof: bool, reply: bytes -> Reply)
    requires fd in s.conns
  {
    var data := Concat(chunks);
    if eof || (data != [] && |s.conns[fd].readBuf| + |data| > MAX_READ) then
      && s'.pending == s.pending + [fd] && s'.clients == s.clients && s'.texts == s.texts
      && (forall g :: g in s'.conns <==> g in s.conns)
      && (forall g :: g in s.conns ==> OutOf(s'.conns[g]) == OutOf(s.conns[g]))
      && s'.conns[fd].handled == s.conns[fd].handled
    else
      Reacted(ReadInto(s, fd, data), s', fd, reply)
  }

  /** What sending leads to: what `send` accepted is gone from the buffer, and the connection is
      queued exactly when sending failed. */
  ghost predicate SentSome(s: Net, s': Net, fd: int, sends: seq<Send>)
    requires fd in s.conns
  {
    var r := Flush(s.conns[fd].writeBuf, sends, 0);
    && (forall g :: g in s'.conns <==> g in s.conns)
    && (forall g :: g in s.conns && g != fd ==> s'.conns[g] == s.conns[g])
    && fd in s'.conns && s'.conns[fd].writeBuf == r.0
    && s'.conns[fd].sent + r.0 == s.conns[fd].sent + s.conns[fd].writeBuf
    && s'.pending == s.pending + (if r.1 then [fd] else []) && s'.clients == s.clients && s'.texts == s.texts
  }

  /** The effect of one event */
  ghost predicate EventDone(s: Net, s': Net, e: Event, reply: bytes -> Reply) {
    match e
    case Incoming(fds) =>
      && s'.pending == s.pending && s'.clients == s.clients && s'.texts == s.texts
      && (forall g :: g in s'.conns <==> g in s.conns || g in fds)
      && (forall g :: g in s.conns ==> g in s'.conns && s'.conns[g] == s.conns[g])
    case Broken(fd) => fd in s.conns && s' == Queue(s, fd)
    case Readable(fd, chunks, eof) => fd in s.conns && ReadAndDriven(s, s', fd, chunks, eof, reply)
    case Writable(fd, sends) => fd in s.conns && SentSome(s, s', fd, sends)
  }
}
