/**
  The WebSocket server: one thread, one epoll set, many connections. `Net` is the state the
  heap objects stand for; `Inv` is what holds at every event boundary of every run.
 */
module ReactorState {
  import opened Bytes
  import opened WsFrame

  const MAX_HANDSHAKE: nat := 0x1_0000
  const MAX_READ: nat := 0x10_0000 + 0x4000
  const MAX_WRITE: nat := 0x40_0000

  const TEXT: byte := 1
  const CLOSE: byte := 8
  const PING: byte := 9
  const PONG: byte := 10

  // ------------------------------------------------------------------ what came in

  datatype Option = None | Some(at: nat)

  /** `find("\r\n\r\n")` from position `at` on */
  function FindFrom(s: bytes, at: nat): (r: Option)
    ensures r.Some? ==> at <= r.at && r.at + 4 <= |s|
    decreases |s| - at
  {
    if at + 4 > |s| then None
    else if s[at..at + 4] == [13, 10, 13, 10] then Some(at)
    else FindFrom(s, at + 1)
  }

  /** The index of the first newline */
  function NewlineFrom(s: bytes, at: nat): (r: Option)
    ensures r.Some? ==> at <= r.at < |s|
    decreases |s| - at
  {
    if at >= |s| then None else if s[at] == 10 then Some(at) else NewlineFrom(s, at + 1)
  }

  /** fetch_http_info succeeds: the first line ends in CR LF. */
  predicate Accepts(headers: bytes) {
    var r := NewlineFrom(headers, 0);
    r.Some? && r.at > 0 && headers[r.at - 1] == 13
  }

  /** CR LF CR LF */
  predicate EmptyLineAt(s: bytes, k: nat) {
    k + 4 <= |s| && s[k] == 13 && s[k + 1] == 10 && s[k + 2] == 13 && s[k + 3] == 10
  }

  /** It stands at `p` and nowhere before. */
  ghost predicate HeadersEndAt(buf: bytes, p: nat) {
    EmptyLineAt(buf, p) && forall k: nat :: k < p ==> !EmptyLineAt(buf, k)
  }

  /** The first LF stands at `n`. */
  ghost predicate FirstLineEndsAt(buf: bytes, n: nat) {
    n < |buf| && buf[n] == 10 && forall k :: 0 <= k < n ==> buf[k] != 10
  }

  /** The first line is not empty and ends in CR LF. */
  ghost predicate GoodFirstLine(buf: bytes) {
    exists n: nat :: FirstLineEndsAt(buf, n) && n > 0 && buf[n - 1] == 13
  }

  /** The requests that are accepted */
  ghost predicate GoodRequest(buf: bytes) {
    |buf| <= 65536 && (exists p: nat :: HeadersEndAt(buf, p)) && GoodFirstLine(buf)
  }

  /** Those for which the connection is given up; of any other the end is still to come. */
  ghost predicate BadRequest(buf: bytes) {
    |buf| > 65536 || ((exists p: nat :: HeadersEndAt(buf, p)) && !GoodFirstLine(buf))
  }

  lemma {:induction false} FindIsFirst(s: bytes, at: nat)
    ensures var r := FindFrom(s, at);
      && (r.Some? ==> EmptyLineAt(s, r.at) && forall k: nat :: at <= k < r.at ==> !EmptyLineAt(s, k))
      && (r.None? ==> forall k: nat :: at <= k ==> !EmptyLineAt(s, k))
    decreases |s| - at
  {
    if at + 4 <= |s| {
      var four := s[at..at + 4];
      assert four == [s[at], s[at + 1], s[at + 2], s[at + 3]];
      if four != [13, 10, 13, 10] {
        FindIsFirst(s, at + 1);
      }
    }
  }

  lemma {:induction false} NewlineIsFirst(s: bytes, at: nat)
    ensures var r := NewlineFrom(s, at);
      && (r.Some? ==> s[r.at] == 10 && forall k :: at <= k < r.at ==> s[k] != 10)
      && (r.None? ==> forall k :: at <= k < |s| ==> s[k] != 10)
    decreases |s| - at
  {
    if at < |s| && s[at] != 10 {
      NewlineIsFirst(s, at + 1);
    }
  }

  /** The search finds the end of the headers exactly where it is. */
  lemma FindIsHeadersEnd(buf: bytes, p: nat)
    ensures FindFrom(buf, 0) == Some(p) <==> HeadersEndAt(buf, p)
    ensures FindFrom(buf, 0).None? ==> !HeadersEndAt(buf, p)
  {
    hide FindFrom;
    FindIsFirst(buf, 0);
  }

  /** A request is accepted for its first line. */
  lemma AcceptsFirstLine(buf: bytes, p: nat)
    requires HeadersEndAt(buf, p)
    ensures Accepts(buf[..p + 4]) <==> GoodFirstLine(buf)
  {
    hide NewlineFrom;
    var headers := buf[..p + 4];
    NewlineIsFirst(headers, 0);
    assert headers[p + 1] == 10;
    var r := NewlineFrom(headers, 0);
    assert r.Some?;
    assert FirstLineEndsAt(buf, r.at);
    if GoodFirstLine(buf) {
      var n: nat :| FirstLineEndsAt(buf, n) && n > 0 && buf[n - 1] == 13;
      assert n == r.at;
    }
  }

  /** The verdict on a handshake, in terms of the bytes */
  lemma VerdictInBytes(buf: bytes)
    ensures var r := FindFrom(buf, 0);
      && (GoodRequest(buf) <==> |buf| <= MAX_HANDSHAKE && r.Some? && Accepts(buf[..r.at + 4]))
      && (BadRequest(buf) <==> |buf| > MAX_HANDSHAKE || (r.Some? && !Accepts(buf[..r.at + 4])))
  {
    hide FindFrom, Accepts, HeadersEndAt, GoodFirstLine;
    var r := FindFrom(buf, 0);
    if r.Some? {
      FindIsHeadersEnd(buf, r.at);
      AcceptsFirstLine(buf, r.at);
    } else {
      forall p: nat ensures !HeadersEndAt(buf, p) {
        FindIsHeadersEnd(buf, p);
      }
    }
  }

  /** What a connection has made of its input: the frames handled and the bytes not yet used. */
  datatype Progress = Progress(upgraded: bool, refused: bool, handled: seq<Frame>, pending: bytes)

  function Consume(received: bytes): Progress {
    match FindFrom(received, 0)
    case None => Progress(false, false, [], received)
    case Some(p) =>
      if !Accepts(received[..p + 4]) then Progress(false, true, [], received[p + 4..])
      else
        var s := Split(received[p + 4..]);
        Progress(true, false, s.frames, s.rest)
  }

  lemma {:induction false} FindIsStable(a: bytes, b: bytes, at: nat)
    requires FindFrom(a, at).Some?
    ensures FindFrom(a + b, at) == FindFrom(a, at)
    decreases |a| - at
  {
    assert (a + b)[at..at + 4] == a[at..at + 4];
    if a[at..at + 4] != [13, 10, 13, 10] {
      FindIsStable(a, b, at + 1);
    }
  }

  /** The frames handled depend on the bytes received and not on how they were cut: going on
      from what was left over gives the same as starting again with everything. */
  lemma ConsumeInPieces(a: bytes, b: bytes)
    requires !Consume(a).refused && (Consume(a).upgraded ==> !Parse(Consume(a).pending).Error?)
    ensures var p := Consume(a);
      Consume(a + b) ==
        if !p.upgraded then Consume(p.pending + b)
        else
          var t := Split(p.pending + b);
          Progress(true, false, p.handled + t.frames, t.rest)
  {
    hide Accepts, Split, Parse;
    var r := FindFrom(a, 0);
    if r.Some? {
      FindIsStable(a, b, 0);
      assert (a + b)[..r.at + 4] == a[..r.at + 4];
      assert (a + b)[r.at + 4..] == a[r.at + 4..] + b;
      SplitInPieces(a[r.at + 4..], b);
    }
  }

  // ------------------------------------------------------------------- one connection

  /**
    A connection. Besides the fields of the handler: all bytes `received`, the frames
    `handled`, the `hello` (101 response) and the `frames` queued, the bytes `sent`, how many
    text frames the process had handled on registration, whether a frame was dropped at the
    write cap, and a serial number.
   */
  datatype Conn = Conn(
    readBuf: bytes, writeBuf: bytes, upgraded: bool,
    received: bytes, handled: seq<Frame>,
    hello: bytes, frames: seq<Frame>, sent: bytes,
    regAt: nat, dropped: bool, id: nat)

  predicate Fits(c: Conn, data: bytes) { |c.writeBuf| + |data| <= 4 * 1024 * 1024 }

  /** Queue a frame, or drop it at the cap. */
  function Push(c: Conn, f: Frame): Conn
    requires WsFrame.Valid(f)
  {
    if Fits(c, Wire(f)) then c.(writeBuf := c.writeBuf + Wire(f), frames := c.frames + [f])
    else c.(dropped := true)
  }

  /** A frame as the server sends them */
  predicate ServerFrame(f: Frame): (b: bool)
    ensures b ==> WsFrame.Valid(f)
  {
    |f.payload| <= MAX_PAYLOAD && f == Packed(f.Opcode(), f.payload)
  }

  lemma PackedIsServerFrame(opcode: byte, payload: bytes)
    requires opcode < 16 && |payload| <= MAX_PAYLOAD
    ensures Packed(opcode, payload).Opcode() == opcode && ServerFrame(Packed(opcode, payload))
  {
  }

  function TextsOf(frames: seq<Frame>): seq<Frame> {
    if frames == [] then []
    else
      var last := frames[|frames| - 1];
      TextsOf(frames[..|frames| - 1]) + if last.Opcode() == TEXT then [last] else []
  }

  ghost predicate Output(c: Conn) {
    && (forall f :: f in c.frames ==> ServerFrame(f))
    && c.sent + c.writeBuf == c.hello + Join(c.frames)
    && |c.writeBuf| <= MAX_WRITE
    && (c.hello == [] <==> !c.upgraded)
    && (!c.upgraded ==> c.frames == [] && !c.dropped)
  }

  /** The text frames queued are those handled in the process since registration. */
  ghost predicate InStep(c: Conn, texts: seq<Frame>) {
    c.upgraded ==> c.regAt <= |texts| && (!c.dropped ==> TextsOf(c.frames) == texts[c.regAt..])
  }

  ghost predicate Sound(c: Conn, texts: seq<Frame>) {
    Output(c) && InStep(c, texts)
  }

  lemma {:induction false} JoinSnoc(frames: seq<Frame>, f: Frame)
    requires WsFrame.Valid(f) && forall g :: g in frames ==> WsFrame.Valid(g)
    ensures forall g :: g in frames + [f] ==> WsFrame.Valid(g)
    ensures Join(frames + [f]) == Join(frames) + Wire(f)
  {
    hide Wire, WsFrame.Valid;
    if frames == [] {
      assert [f][1..] == [];
    } else {
      JoinSnoc(frames[1..], f);
      assert (frames + [f])[1..] == frames[1..] + [f];
    }
  }

  lemma PushKeepsOutput(c: Conn, f: Frame)
    requires Output(c) && c.upgraded && ServerFrame(f)
    ensures Output(Push(c, f))
  {
    hide Wire, Join;
    JoinSnoc(c.frames, f);
    if Fits(c, Wire(f)) {
      assert c.sent + (c.writeBuf + Wire(f)) == (c.sent + c.writeBuf) + Wire(f);
    }
  }

  lemma PushTexts(frames: seq<Frame>, f: Frame)
    ensures TextsOf(frames + [f]) == TextsOf(frames) + if f.Opcode() == TEXT then [f] else []
  {
    assert (frames + [f])[..|frames|] == frames;
  }

  /** A text frame handled by the process keeps a client in step if it is queued there. */
  lemma PushTextKeepsStep(c: Conn, f: Frame, texts: seq<Frame>)
    requires Sound(c, texts) && c.upgraded && ServerFrame(f) && f.Opcode() == TEXT
    ensures Sound(Push(c, f), texts + [f])
  {
    hide Wire, Join, Output, TextsOf, ServerFrame;
    PushKeepsOutput(c, f);
    PushTexts(c.frames, f);
    if c.regAt <= |texts| {
      assert (texts + [f])[c.regAt..] == texts[c.regAt..] + [f];
    }
  }

  lemma PushOtherKeepsStep(c: Conn, f: Frame, texts: seq<Frame>)
    requires Sound(c, texts) && c.upgraded && ServerFrame(f) && f.Opcode() != TEXT
    ensures Sound(Push(c, f), texts)
  {
    hide Wire, Join, Output, TextsOf, ServerFrame;
    PushKeepsOutput(c, f);
    PushTexts(c.frames, f);
  }

  /** What the peer of a connection reads after the 101 response decodes to the frames queued,
      in order, and to nothing else; its text frames are the process-wide sequence from its
      registration on, unless a frame was dropped at the cap. */
  lemma PeerReadsTheSharedSequence(c: Conn, texts: seq<Frame>)
    requires Sound(c, texts) && c.upgraded
    ensures c.hello <= c.sent + c.writeBuf
    ensures Split((c.sent + c.writeBuf)[|c.hello|..]) == Stream(c.frames, [])
    ensures !c.dropped ==> TextsOf(c.frames) == texts[c.regAt..]
  {
    var stream := Join(c.frames);
    assert (c.sent + c.writeBuf)[|c.hello|..] == stream;
    assert stream + [] == stream;
    SplitOfJoin(c.frames, []);
  }

  /** Two clients see the same text frames in the same order from the later registration on. */
  lemma SameOrder(c: Conn, d: Conn, texts: seq<Frame>)
    requires Sound(c, texts) && Sound(d, texts) && c.upgraded && d.upgraded
    requires !c.dropped && !d.dropped && c.regAt <= d.regAt
    ensures TextsOf(c.frames) == texts[c.regAt..d.regAt] + TextsOf(d.frames)
  {
  }

  // --------------------------------------------------------------- all connections

  /** The server: the connections by descriptor, the broadcast set, the queue of descriptors to
      close (`queuedIds` says which connection each was queued for), whether EPOLLOUT is set in
      each registered mask, the text frames handled so far, and the serial numbers of the
      connections closed so far. */
  datatype Net = Net(
    conns: map<int, Conn>, clients: set<int>, pending: seq<int>, queuedIds: seq<nat>,
    masks: map<int, bool>, texts: seq<Frame>, nextId: nat, closed: seq<nat>)

  /** The listener is there and is no client; nobody queues it for closing. */
  ghost predicate Listening(s: Net, listen: int) {
    && listen in s.conns && !s.conns[listen].upgraded && listen !in s.pending
    && (forall fd :: fd in s.conns ==> fd >= 0)
  }

  /** The broadcast set is exactly the connections whose handshake is done. */
  ghost predicate Registered(s: Net) {
    forall fd :: fd in s.clients <==> fd in s.conns && s.conns[fd].upgraded
  }

  ghost predicate AllSound(s: Net) {
    forall fd :: fd in s.conns ==> Sound(s.conns[fd], s.texts)
  }

  /** Writability is waited for exactly where there is something to write. */
  ghost predicate MasksFresh(s: Net) {
    MasksFit(s.masks, s.conns)
  }

  ghost predicate MasksFit(masks: map<int, bool>, conns: map<int, Conn>) {
    && (forall fd :: fd in masks <==> fd in conns)
    && (forall fd :: fd in conns ==> masks[fd] == (conns[fd].writeBuf != []))
  }

  /** Every descriptor queued is still that of the connection it was queued for, and whoever
      lost a frame is queued. */
  ghost predicate QueueSafe(s: Net) {
    && |s.pending| == |s.queuedIds|
    && (forall k :: 0 <= k < |s.pending| ==> s.pending[k] in s.conns && s.conns[s.pending[k]].id == s.queuedIds[k])
    && (forall fd :: fd in s.conns && s.conns[fd].dropped ==> fd in s.pending)
  }

  /** Serial numbers are not used twice, and no open connection has been closed. */
  ghost predicate IdsUnique(s: Net) {
    && (forall fd :: fd in s.conns ==> s.conns[fd].id < s.nextId && s.conns[fd].id !in s.closed)
    && (forall fd, fd' :: fd in s.conns && fd' in s.conns && fd != fd' ==> s.conns[fd].id != s.conns[fd'].id)
    && (forall k :: 0 <= k < |s.closed| ==> s.closed[k] < s.nextId)
    && (forall j, k :: 0 <= j < k < |s.closed| ==> s.closed[j] != s.closed[k])
  }

  ghost predicate Core(s: Net, listen: int) {
    Listening(s, listen) && Registered(s) && AllSound(s) && MasksFresh(s) && QueueSafe(s) && IdsUnique(s)
  }

  /** The connection has handled what the bytes it received amount to. */
  ghost predicate Driven(c: Conn) {
    && Consume(c.received) == Progress(c.upgraded, false, c.handled, c.readBuf)
    && (c.upgraded ==> Parse(c.readBuf).NeedMore?)
  }

  ghost predicate AllDriven(s: Net, except: set<int>) {
    forall fd :: fd in s.conns && fd !in s.pending && fd !in except ==> Driven(s.conns[fd])
  }

  /** What holds at every event boundary. */
  ghost predicate Inv(s: Net, listen: int) {
    Core(s, listen) && AllDriven(s, {})
  }

  // ------------------------------------------------------------------- transitions

  /** Something to send: the 101 response or a frame */
  datatype Item = Response(text: bytes) | Framed(frame: Frame)

  predicate Sendable(i: Item) { match i case Response(t) => t != [] case Framed(f) => ServerFrame(f) }

  function DataOf(i: Item): (d: bytes)
    requires Sendable(i)
    ensures d != []
  {
    match i case Response(t) => t case Framed(f) => Wire(f)
  }

  function Put(c: Conn, i: Item): Conn
    requires Sendable(i)
  {
    match i
    case Response(t) => if Fits(c, t) then c.(writeBuf := c.writeBuf + t, hello := t) else c.(dropped := true)
    case Framed(f) => Push(c, f)
  }

  ghost function Queue(s: Net, fd: int): Net
    requires fd in s.conns
  {
    s.(pending := s.pending + [fd], queuedIds := s.queuedIds + [s.conns[fd].id])
  }

  /** append_outgoing */
  ghost function Append(s: Net, fd: int, i: Item, update: bool): Net
    requires fd in s.conns && Sendable(i)
  {
    var c := Put(s.conns[fd], i);
    var s' := s.(conns := s.conns[fd := c]);
    if !Fits(s.conns[fd], DataOf(i)) then Queue(s', fd)
    else if update then s'.(masks := s.masks[fd := c.writeBuf != []])
    else s'
  }

  /** The pending queue has grown by exactly the descriptors in `lost`, each with its serial number. */
  ghost predicate QueueGrew(s: Net, s': Net, lost: set<int>) {
    && |s'.pending| == |s'.queuedIds| && |s.pending| == |s.queuedIds|
    && s.pending <= s'.pending && s.queuedIds <= s'.queuedIds
    && (forall fd :: fd in s'.pending[|s.pending|..] <==> fd in lost)
    && (forall k :: |s.pending| <= k < |s'.pending| ==>
          s'.pending[k] in s.conns && s'.queuedIds[k] == s.conns[s'.pending[k]].id)
  }

  ghost function PushTo(conns: map<int, Conn>, to: set<int>, f: Frame): map<int, Conn>
    requires WsFrame.Valid(f)
  {
    map fd | fd in conns :: if fd in to then Push(conns[fd], f) else conns[fd]
  }

  ghost function Losing(conns: map<int, Conn>, to: set<int>, f: Frame): set<int>
    requires WsFrame.Valid(f)
  {
    set fd | fd in to && fd in conns && !Fits(conns[fd], Wire(f))
  }

  /** broadcast_ws_binary to the clients `to`: each gets the frame or loses it, and the masks are
      fresh again. */
  ghost predicate Broadcast(s: Net, s': Net, to: set<int>, f: Frame)
    requires WsFrame.Valid(f)
  {
    && s'.conns == PushTo(s.conns, to, f) && QueueGrew(s, s', Losing(s.conns, to, f))
    && MasksFit(s'.masks, s'.conns)
    && s'.clients == s.clients && s'.texts == s.texts && s'.nextId == s.nextId && s'.closed == s.closed
  }

  /** A text frame handled: echoed to its sender and broadcast to all other clients. */
  lemma TextKeepsCore(s: Net, s': Net, f: Frame, listen: int)
    requires Core(s, listen) && ServerFrame(f) && f.Opcode() == TEXT
    requires Broadcast(s.(texts := s.texts + [f]), s', s.clients, f)
    ensures Core(s', listen)
  {
    hide Sound, Push, ServerFrame, IdsUnique, MasksFit, Wire;
    forall fd | fd in s'.conns ensures Sound(s'.conns[fd], s'.texts) {
      if fd in s.clients {
        PushTextKeepsStep(s.conns[fd], f, s.texts);
      } else {
        UnregisteredIsSound(s.conns[fd], s.texts, s'.texts);
      }
    }
    PushKeepsRest(s, s', s.clients, f, listen);
  }

  lemma UnregisteredIsSound(c: Conn, texts: seq<Frame>, texts': seq<Frame>)
    requires Sound(c, texts) && !c.upgraded
    ensures Sound(c, texts')
  {
  }

  /** Queueing a frame changes nothing else about a connection. */
  lemma PushKeeps(c: Conn, f: Frame)
    requires WsFrame.Valid(f)
    ensures var d := Push(c, f);
      && d == c.(writeBuf := d.writeBuf, frames := d.frames, dropped := d.dropped)
      && d.dropped == (c.dropped || !Fits(c, Wire(f)))
  {
  }

  lemma PushKeepsRest(s: Net, s': Net, to: set<int>, f: Frame, listen: int)
    requires Listening(s, listen) && Registered(s) && QueueSafe(s) && IdsUnique(s) && to <= s.clients
    requires WsFrame.Valid(f) && s'.conns == PushTo(s.conns, to, f) && QueueGrew(s, s', Losing(s.conns, to, f))
    requires s'.clients == s.clients && s'.nextId == s.nextId && s'.closed == s.closed
    ensures Listening(s', listen) && Registered(s') && QueueSafe(s') && IdsUnique(s')
  {
    hide Push, Wire, WsFrame.Valid;
    forall fd | fd in s.conns
      ensures var c, d := s.conns[fd], s'.conns[fd];
        d.upgraded == c.upgraded && d.id == c.id
        && (d.dropped ==> c.dropped || fd in Losing(s.conns, to, f))
    {
      PushKeeps(s.conns[fd], f);
    }
    assert forall fd :: fd in s'.pending <==> fd in s.pending || fd in s'.pending[|s.pending|..] by {
      assert s'.pending == s.pending + s'.pending[|s.pending|..];
    }
    forall fd | fd in Losing(s.conns, to, f) ensures fd in s'.pending {
      assert fd in s'.pending[|s.pending|..];
    }
  }

  /** The state `s'` of the broadcast loop begun in `s`, once the clients `done` have been
      served: masks are still as they were, and `toRefresh` are those to refresh. */
  ghost predicate AppendedTo(s: Net, s': Net, done: set<int>, f: Frame, toRefresh: seq<int>)
    requires WsFrame.Valid(f)
  {
    && s'.conns == PushTo(s.conns, done, f) && QueueGrew(s, s', Losing(s.conns, done, f))
    && s' == s.(conns := s'.conns, pending := s'.pending, queuedIds := s'.queuedIds)
    && (forall fd :: fd in toRefresh ==> fd in s.conns && fd in done)
    && (forall fd :: fd in done && fd in s.conns && s.conns[fd].writeBuf == [] && s'.conns[fd].writeBuf != [] ==> fd in toRefresh)
  }

  lemma NobodyYet(s: Net, f: Frame)
    requires WsFrame.Valid(f) && |s.pending| == |s.queuedIds|
    ensures AppendedTo(s, s, {}, f, [])
  {
  }

  /** One more client served */
  lemma AppendStep(s0: Net, s: Net, s': Net, done: set<int>, fd: int, f: Frame, toRefresh: seq<int>, toRefresh': seq<int>)
    requires ServerFrame(f) && fd in s0.conns && fd !in done
    requires AppendedTo(s0, s, done, f, toRefresh) && s' == Append(s, fd, Framed(f), false)
    requires toRefresh' == if s.conns[fd].writeBuf == [] && s'.conns[fd].writeBuf != [] then toRefresh + [fd] else toRefresh
    ensures AppendedTo(s0, s', done + {fd}, f, toRefresh')
  {
    hide Wire, ServerFrame;
    assert s.conns[fd] == s0.conns[fd];
    if Fits(s0.conns[fd], Wire(f)) {
      assert Losing(s0.conns, done + {fd}, f) == Losing(s0.conns, done, f);
    } else {
      assert Losing(s0.conns, done + {fd}, f) == Losing(s0.conns, done, f) + {fd};
      assert s'.pending[|s0.pending|..] == s.pending[|s0.pending|..] + [fd];
    }
  }

  ghost function Refreshed(masks: map<int, bool>, conns: map<int, Conn>, fds: seq<int>): map<int, bool>
    requires forall fd :: fd in fds ==> fd in conns
  {
    if fds == [] then masks
    else
      var fd := fds[|fds| - 1];
      Refreshed(masks, conns, fds[..|fds| - 1])[fd := conns[fd].writeBuf != []]
  }

  lemma {:induction false} RefreshedAt(masks: map<int, bool>, conns: map<int, Conn>, fds: seq<int>)
    requires forall fd :: fd in masks <==> fd in conns
    requires forall fd :: fd in fds ==> fd in conns
    ensures forall fd :: fd in Refreshed(masks, conns, fds) <==> fd in conns
    ensures forall fd :: fd in conns ==>
      Refreshed(masks, conns, fds)[fd] == if fd in fds then conns[fd].writeBuf != [] else masks[fd]
  {
    if fds != [] {
      RefreshedAt(masks, conns, fds[..|fds| - 1]);
      assert fds == fds[..|fds| - 1] + [fds[|fds| - 1]];
    }
  }

  /** It is enough to refresh the masks of the clients whose buffers were empty and are not any
      more: the result is what refreshing every mask after every append would have led to. */
  lemma RefreshIsEnough(s: Net, conns: map<int, Conn>, done: set<int>, f: Frame, fds: seq<int>)
    requires WsFrame.Valid(f) && MasksFresh(s) && conns == PushTo(s.conns, done, f)
    requires forall fd :: fd in fds ==> fd in s.conns
    requires forall fd :: fd in done && fd in s.conns && s.conns[fd].writeBuf == [] && conns[fd].writeBuf != [] ==> fd in fds
    ensures MasksFit(Refreshed(s.masks, conns, fds), conns)
  {
    hide Wire;
    RefreshedAt(s.masks, conns, fds);
    forall fd | fd in conns ensures Refreshed(s.masks, conns, fds)[fd] == (conns[fd].writeBuf != []) {
      if fd in done {
        assert conns[fd] == Push(s.conns[fd], f);
      }
    }
  }

  // ------------------------------------------------------------- handling one frame

  /** Sending to one connection with its mask updated at once is a broadcast to it alone. */
  lemma AppendIsBroadcast(s: Net, fd: int, f: Frame)
    requires fd in s.conns && ServerFrame(f) && MasksFresh(s) && |s.pending| == |s.queuedIds|
    ensures Broadcast(s, Append(s, fd, Framed(f), true), {fd}, f)
  {
    hide Wire, ServerFrame;
    var s' := Append(s, fd, Framed(f), true);
    if !Fits(s.conns[fd], Wire(f)) {
      assert s'.pending[|s.pending|..] == [fd];
    }
  }

  /** Broadcasts to different clients add up. */
  lemma BroadcastTwice(s: Net, s1: Net, s2: Net, a: set<int>, b: set<int>, f: Frame)
    requires ServerFrame(f) && a !! b
    requires Broadcast(s, s1, a, f) && Broadcast(s1, s2, b, f)
    ensures Broadcast(s, s2, a + b, f)
  {
    hide Wire, ServerFrame, Push, MasksFit;
    forall fd | fd in s.conns ensures s2.conns[fd] == PushTo(s.conns, a + b, f)[fd] {}
    forall fd | fd in b && fd in s.conns ensures s1.conns[fd] == s.conns[fd] {}
    assert Losing(s.conns, a + b, f) == Losing(s.conns, a, f) + Losing(s1.conns, b, f);
    assert s2.pending[|s.pending|..] == s1.pending[|s.pending|..] + s2.pending[|s1.pending|..];
    forall fd | fd in s.conns ensures s1.conns[fd].id == s.conns[fd].id {
      PushKeeps(s.conns[fd], f);
    }
  }

  /** Any other frame is queued for its own client only. */
  lemma OtherKeepsCore(s: Net, s': Net, to: set<int>, f: Frame, listen: int)
    requires Core(s, listen) && ServerFrame(f) && f.Opcode() != TEXT && to <= s.clients
    requires Broadcast(s, s', to, f)
    ensures Core(s', listen)
  {
    hide Sound, Push, ServerFrame, IdsUnique, MasksFit, Wire;
    forall fd | fd in s'.conns ensures Sound(s'.conns[fd], s'.texts) {
      if fd in to {
        PushOtherKeepsStep(s.conns[fd], f, s.texts);
      }
    }
    PushKeepsRest(s, s', to, f, listen);
  }

  lemma QueueKeepsCore(s: Net, fd: int, listen: int)
    requires Core(s, listen) && fd in s.conns && fd != listen
    ensures Core(Queue(s, fd), listen)
  {
    hide Sound, IdsUnique, MasksFit;
    var s' := Queue(s, fd);
    assert IdsUnique(s') by {
      IdsOf(s, s');
    }
  }

  lemma IdsOf(s: Net, s': Net)
    requires IdsUnique(s) && s'.conns.Keys == s.conns.Keys && s'.nextId == s.nextId && s'.closed == s.closed
    requires forall fd :: fd in s.conns ==> s'.conns[fd].id == s.conns[fd].id
    ensures IdsUnique(s')
  {
  }

  /** Nothing that was received has been touched, no connection has come or gone, and the
      queue has only grown. */
  ghost predicate InputsKept(s: Net, s': Net) {
    && s'.conns.Keys == s.conns.Keys && s'.clients == s.clients && s.pending <= s'.pending
    && s'.nextId == s.nextId && s'.closed == s.closed
    && (forall fd :: fd in s.conns ==> SameInput(s.conns[fd], s'.conns[fd]))
  }

  ghost predicate SameInput(c: Conn, d: Conn) {
    d == c.(writeBuf := d.writeBuf, frames := d.frames, dropped := d.dropped, sent := d.sent)
  }

  lemma BroadcastKeepsInputs(s: Net, s': Net, to: set<int>, f: Frame)
    requires ServerFrame(f) && Broadcast(s, s', to, f)
    ensures InputsKept(s, s')
  {
    hide Wire, ServerFrame, Push, MasksFit, Losing;
    forall fd | fd in s.conns ensures SameInput(s.conns[fd], s'.conns[fd]) {
      PushKeeps(s.conns[fd], f);
    }
  }

  /** What handling one frame does: text is logged, echoed and broadcast, a close frame queues the
      connection, a ping is answered, and anything else is dropped. The opcodes are those of
      section 5.2 of RFC 6455. */
  ghost predicate HandledOne(s: Net, s': Net, fd: int, opcode: nat, payload: bytes)
    requires |payload| <= MAX_PAYLOAD && fd in s.conns
  {
    if opcode == 1 then
      var f := Packed(1, payload);
      Broadcast(s.(texts := s.texts + [f]), s', s.clients, f)
    else if opcode == 8 then s' == Queue(s, fd)
    else if opcode == 9 then Broadcast(s, s', {fd}, Packed(10, payload))
    else s' == s
  }

  /** The text frame a frame adds to the process-wide sequence, if it is one */
  function EchoOf(f: Frame): seq<Frame> {
    if f.Opcode() == TEXT && |f.payload| <= MAX_PAYLOAD then [Packed(TEXT, f.payload)] else []
  }

  function Echoes(frames: seq<Frame>): seq<Frame> {
    if frames == [] then [] else Echoes(frames[..|frames| - 1]) + EchoOf(frames[|frames| - 1])
  }

  lemma {:induction false} EchoesSplit(a: seq<Frame>, b: seq<Frame>)
    ensures Echoes(a + b) == Echoes(a) + Echoes(b)
    decreases |b|
  {
    if b == [] {
      assert a + b == a;
    } else {
      assert (a + b)[..|a + b| - 1] == a + b[..|b| - 1];
      EchoesSplit(a, b[..|b| - 1]);
    }
  }

  ghost predicate HasClose(frames: seq<Frame>) { exists k :: 0 <= k < |frames| && frames[k].Opcode() == CLOSE }

  lemma HasCloseSplits(a: seq<Frame>, b: seq<Frame>)
    requires HasClose(a + b)
    ensures HasClose(a) || HasClose(b)
  {
    var k :| 0 <= k < |a + b| && (a + b)[k].Opcode() == CLOSE;
    if k < |a| {
      assert a[k].Opcode() == CLOSE;
    } else {
      assert b[k - |a|].Opcode() == CLOSE;
    }
  }

  /** Between two states, connection `fd` has handled more frames: exactly their texts are new in
      the process-wide sequence, and a close frame among them has queued the connection. */
  ghost predicate Logged(s: Net, s': Net, fd: int)
    requires fd in s.conns && fd in s'.conns
  {
    var h, h' := s.conns[fd].handled, s'.conns[fd].handled;
    h <= h' && s'.texts == s.texts + Echoes(h'[|h|..]) && (HasClose(h'[|h|..]) ==> fd in s'.pending)
  }

  lemma LoggedNothing(s: Net, s': Net, fd: int)
    requires fd in s.conns && fd in s'.conns
    requires s'.texts == s.texts && s'.conns[fd].handled == s.conns[fd].handled
    ensures Logged(s, s', fd)
  {
    assert s.conns[fd].handled[|s.conns[fd].handled|..] == [];
  }

  lemma LoggedTwice(s: Net, s1: Net, s2: Net, fd: int)
    requires fd in s.conns && fd in s1.conns && fd in s2.conns
    requires Logged(s, s1, fd) && Logged(s1, s2, fd) && s1.pending <= s2.pending
    ensures Logged(s, s2, fd)
  {
    hide HasClose, Echoes;
    var h, h1, h2 := s.conns[fd].handled, s1.conns[fd].handled, s2.conns[fd].handled;
    assert h2[|h|..] == h1[|h|..] + h2[|h1|..];
    EchoesSplit(h1[|h|..], h2[|h1|..]);
    if HasClose(h1[|h|..] + h2[|h1|..]) {
      HasCloseSplits(h1[|h|..], h2[|h1|..]);
    }
  }

  lemma LoggedOne(s: Net, s1: Net, s2: Net, fd: int, f: Frame)
    requires fd in s.conns && fd in s1.conns && fd in s2.conns && |f.payload| <= MAX_PAYLOAD
    requires s1.texts == s.texts && s1.conns[fd].handled == s.conns[fd].handled + [f]
    requires HandledOne(s1, s2, fd, f.Opcode(), f.payload) && s2.conns[fd].handled == s1.conns[fd].handled
    ensures Logged(s, s2, fd)
  {
    hide Wire, Push, MasksFit, Losing, QueueGrew;
    var h, h2 := s.conns[fd].handled, s2.conns[fd].handled;
    assert h2[|h|..] == [f];
    assert Echoes([f]) == Echoes([]) + EchoOf(f) by {
      assert [f][..0] == [];
    }
    if f.Opcode() == CLOSE {
      assert s2.pending[|s1.pending|] == fd;
    }
  }

  lemma ReadyToBroadcast(s: Net, s': Net, fd: int, f: Frame)
    requires Registered(s) && ServerFrame(f) && Broadcast(s, s', {fd}, f)
    ensures MasksFresh(s') && |s'.pending| == |s'.queuedIds| && s'.clients == s.clients
    ensures forall g :: g in s'.clients ==> g in s'.conns
  {
    hide Push, ServerFrame, Wire;
  }

  lemma TextsAside(s0: Net, s1: Net, s': Net)
    requires s1 == s0.(texts := s1.texts) && InputsKept(s1, s')
    ensures InputsKept(s0, s')
  {
  }

  lemma NothingHappens(s: Net)
    ensures InputsKept(s, s)
  {
  }

  lemma QueueKeeps(s: Net, s': Net, fd: int, listen: int)
    requires Core(s, listen) && fd in s.conns && fd != listen && s' == Queue(s, fd)
    ensures Core(s', listen) && InputsKept(s, s')
  {
    hide Core;
    QueueKeepsCore(s, fd, listen);
  }

  // ------------------------------------------------------------------ driving input

  /** What is still in the buffer is all that is missing from the frames handled. */
  ghost predicate Lagging(c: Conn) {
    if !c.upgraded then c.readBuf == c.received && c.handled == []
    else
      var t := Split(c.readBuf);
      Consume(c.received) == Progress(true, false, c.handled + t.frames, t.rest)
  }

  lemma ReceiveMore(c: Conn, d: Conn, data: bytes)
    requires Driven(c)
    requires d == c.(readBuf := c.readBuf + data, received := c.received + data)
    ensures Lagging(d)
  {
    hide Split, Accepts;
    if c.upgraded {
      ConsumeInPieces(c.received, data);
    }
  }

  /** One frame taken from the buffer */
  lemma TakeFrame(c: Conn, d: Conn)
    requires Lagging(c) && c.upgraded && Parse(c.readBuf).Ok?
    requires var v := Parse(c.readBuf);
      d == c.(readBuf := c.readBuf[v.total..], handled := c.handled + [v.frame])
    ensures Lagging(d)
  {
    var v := Parse(c.readBuf);
    var t := Split(c.readBuf[v.total..]);
    assert c.handled + ([v.frame] + t.frames) == c.handled + [v.frame] + t.frames;
  }

  lemma NothingToTake(c: Conn)
    requires Lagging(c) && c.upgraded && Parse(c.readBuf).NeedMore?
    ensures Driven(c)
  {
    assert c.handled + [] == c.handled;
  }

  lemma NoHeaderYet(c: Conn)
    requires Lagging(c) && !c.upgraded && FindFrom(c.readBuf, 0).None?
    ensures Driven(c)
  {
  }

  /** The handshake done, the frames behind the headers are next. */
  lemma Upgraded(c: Conn, d: Conn, p: nat)
    requires Lagging(c) && !c.upgraded && FindFrom(c.readBuf, 0) == Some(p) && Accepts(c.readBuf[..p + 4])
    requires d.upgraded && d.handled == [] && d.received == c.received && d.readBuf == c.readBuf[p + 4..]
    ensures Lagging(d)
  {
    var t := Split(d.readBuf);
    assert d.handled + t.frames == t.frames;
  }

  /** Only input fields of one connection change. */
  lemma InputKeepsCore(s: Net, s': Net, fd: int, c: Conn, listen: int)
    requires Core(s, listen) && fd in s.conns && s' == s.(conns := s.conns[fd := c])
    requires c == s.conns[fd].(readBuf := c.readBuf, received := c.received, handled := c.handled)
    ensures Core(s', listen)
  {
    hide IdsUnique;
    IdsOf(s, s');
  }

  /** The response is queued and the connection becomes a client. */
  lemma UpgradeKeepsCore(s: Net, s': Net, fd: int, c: Conn, text: bytes, listen: int)
    requires Core(s, listen) && fd in s.conns && fd != listen && !s.conns[fd].upgraded
    requires 0 < |text| < 1024
    requires c == s.conns[fd].(readBuf := c.readBuf, upgraded := true, regAt := |s.texts|)
    requires s' == Append(s.(conns := s.conns[fd := c]), fd, Response(text), true).(clients := s.clients + {fd})
    ensures Core(s', listen) && s'.conns[fd].hello == text
  {
    hide IdsUnique;
    assert s.conns[fd].sent + s.conns[fd].writeBuf == [];
    assert Fits(c, text);
    var d := s'.conns[fd];
    assert d.sent + d.writeBuf == text + Join(d.frames);
    assert s.texts[|s.texts|..] == [];
    assert Sound(d, s'.texts);
    IdsOf(s, s');
  }

  /** Everyone else's input is as it was. */
  ghost predicate OthersKept(s: Net, s': Net, fd: int) {
    && s'.conns.Keys == s.conns.Keys && s.pending <= s'.pending
    && s'.nextId == s.nextId && s'.closed == s.closed
    && (forall g :: g in s.conns && g != fd ==> SameInput(s.conns[g], s'.conns[g]))
  }

  lemma OthersStayDriven(s: Net, s': Net, fd: int)
    requires AllDriven(s, {fd}) && OthersKept(s, s', fd)
    ensures AllDriven(s', {fd})
  {
    hide Driven;
    forall g | g in s'.conns && g !in s'.pending && g != fd ensures Driven(s'.conns[g]) {
      assert g !in s.pending;
      InputIsAll(s.conns[g], s'.conns[g]);
    }
  }

  lemma InputIsAll(c: Conn, d: Conn)
    requires Driven(c) && SameInput(c, d)
    ensures Driven(d)
  {
  }

  /** Between two frames, while the connection `fd` is driven from state `s` on: nobody else's
      input is touched, the text frames handled only grow, and unless the connection is to be
      closed, its buffer holds just what is still to be handled. */
  ghost predicate Going(s: Net, s': Net, fd: int, listen: int) {
    && Core(s', listen) && OthersKept(s, s', fd)
    && fd in s.conns && fd in s'.conns && Logged(s, s', fd) && s'.conns[fd].received == s.conns[fd].received
    && (fd in s'.pending || Lagging(s'.conns[fd]))
  }

  /** In the end everything complete has been handled. */
  ghost predicate Finished(s: Net, s': Net, fd: int, listen: int) {
    && Core(s', listen) && OthersKept(s, s', fd)
    && fd in s.conns && fd in s'.conns && Logged(s, s', fd) && s'.conns[fd].received == s.conns[fd].received
    && (fd in s'.pending || Driven(s'.conns[fd]))
  }

  lemma GoingFirst(s: Net, fd: int, listen: int)
    requires Core(s, listen) && fd in s.conns && (fd in s.pending || Lagging(s.conns[fd]))
    ensures Going(s, s, fd, listen)
  {
    hide Core, Lagging, Logged;
    LoggedNothing(s, s, fd);
  }

  lemma GoingTwice(s: Net, s1: Net, s2: Net, fd: int, listen: int)
    requires Going(s, s1, fd, listen) && Going(s1, s2, fd, listen)
    ensures Going(s, s2, fd, listen)
  {
    hide Core, Lagging, Logged;
    LoggedTwice(s, s1, s2, fd);
  }

  lemma GoingThenFinished(s: Net, s1: Net, s2: Net, fd: int, listen: int)
    requires Going(s, s1, fd, listen) && Finished(s1, s2, fd, listen)
    ensures Finished(s, s2, fd, listen)
  {
    hide Core, Lagging, Driven, Logged;
    LoggedTwice(s, s1, s2, fd);
  }

  /** Nothing complete is left in the buffer. */
  lemma GoingEnds(s: Net, s': Net, fd: int, listen: int)
    requires Going(s, s', fd, listen) && s'.conns[fd].upgraded && Parse(s'.conns[fd].readBuf).NeedMore?
    ensures Finished(s, s', fd, listen)
  {
    hide Core, Lagging, Driven, Logged;
    if fd !in s'.pending {
      NothingToTake(s'.conns[fd]);
    }
  }

  /** The connection is given up. */
  lemma GoingIsQueued(s: Net, s1: Net, s2: Net, fd: int, listen: int)
    requires Going(s, s1, fd, listen) && fd != listen && s2 == Queue(s1, fd)
    ensures Finished(s, s2, fd, listen)
  {
    hide Core, Lagging, Driven, Logged;
    QueueKeepsCore(s1, fd, listen);
    LoggedNothing(s1, s2, fd);
    LoggedTwice(s, s1, s2, fd);
  }

  /** A frame is taken from the buffer, and then handled. */
  lemma GoingByOneFrame(s: Net, s1: Net, s2: Net, fd: int, listen: int)
    requires Core(s, listen) && fd in s.conns && (fd in s.pending || Lagging(s.conns[fd]))
    requires s.conns[fd].upgraded && Parse(s.conns[fd].readBuf).Ok?
    requires var c := s.conns[fd];
      var v := Parse(c.readBuf);
      s1 == s.(conns := s.conns[fd := c.(readBuf := c.readBuf[v.total..], handled := c.handled + [v.frame])])
    requires InputsKept(s1, s2) && Core(s2, listen)
    requires var f := Parse(s.conns[fd].readBuf).frame;
      HandledOne(s1, s2, fd, f.Opcode(), f.payload)
    ensures Going(s, s2, fd, listen)
  {
    hide Core, Lagging, Parse, Logged, HandledOne;
    LoggedOne(s, s1, s2, fd, Parse(s.conns[fd].readBuf).frame);
    if fd !in s.pending {
      TakeFrame(s.conns[fd], s1.conns[fd]);
      StillLagging(s1.conns[fd], s2.conns[fd]);
    }
  }

  lemma StillLagging(c: Conn, d: Conn)
    requires Lagging(c) && SameInput(c, d)
    ensures Lagging(d)
  {
  }

  /** A handshake accepted: the response is queued, the connection is a client. */
  lemma GoingByUpgrade(s: Net, s': Net, fd: int, p: nat, text: bytes, listen: int)
    requires Core(s, listen) && fd in s.conns && fd != listen && (fd in s.pending || Lagging(s.conns[fd]))
    requires !s.conns[fd].upgraded && FindFrom(s.conns[fd].readBuf, 0) == Some(p)
    requires Accepts(s.conns[fd].readBuf[..p + 4]) && 0 < |text| < 1024
    requires var c := s.conns[fd];
      var d := c.(readBuf := c.readBuf[p + 4..], upgraded := true, regAt := |s.texts|);
      s' == Append(s.(conns := s.conns[fd := d]), fd, Response(text), true).(clients := s.clients + {fd})
    ensures Going(s, s', fd, listen) && s'.conns[fd].hello == text
  {
    hide Core, Lagging, Accepts, FindFrom, Logged;
    LoggedNothing(s, s', fd);
    var c := s.conns[fd];
    var d := c.(readBuf := c.readBuf[p + 4..], upgraded := true, regAt := |s.texts|);
    UpgradeKeepsCore(s, s', fd, d, text, listen);
    if fd !in s.pending {
      NothingHandledYet(c);
      Upgraded(c, s'.conns[fd], p);
    }
  }

  lemma NothingHandledYet(c: Conn)
    requires Lagging(c) && !c.upgraded
    ensures c.handled == []
  {
  }

  lemma FinishedBeforeHeader(s: Net, fd: int, listen: int)
    requires Core(s, listen) && fd in s.conns && (fd in s.pending || Lagging(s.conns[fd]))
    requires !s.conns[fd].upgraded && FindFrom(s.conns[fd].readBuf, 0).None?
    ensures Finished(s, s, fd, listen)
  {
    hide Core, Lagging, Driven, Logged;
    LoggedNothing(s, s, fd);
    if fd !in s.pending {
      NoHeaderYet(s.conns[fd]);
    }
  }

  /** A handshake refused: the headers are gone and the connection is queued. */
  lemma FinishedByRefusal(s: Net, s': Net, fd: int, c: Conn, listen: int)
    requires Core(s, listen) && fd in s.conns && fd != listen && c == s.conns[fd].(readBuf := c.readBuf)
    requires s' == Queue(s.(conns := s.conns[fd := c]), fd)
    ensures Finished(s, s', fd, listen)
  {
    hide Core, Driven, Logged;
    LoggedNothing(s, s', fd);
    InputKeepsCore(s, s.(conns := s.conns[fd := c]), fd, c, listen);
    QueueKeepsCore(s.(conns := s.conns[fd := c]), fd, listen);
  }

  lemma WhileGoing(s: Net, s': Net, fd: int, listen: int)
    requires Going(s, s', fd, listen)
    ensures Core(s', listen) && fd in s'.conns && (fd in s'.pending || Lagging(s'.conns[fd]))
  {
    hide Core, Lagging;
  }

  lemma SelfKept(s: Net, s': Net, fd: int)
    requires InputsKept(s, s') && fd in s.conns
    ensures SameInput(s.conns[fd], s'.conns[fd])
  {
  }

  // ------------------------------------------------------------------------- events

  /** What the kernel reports. Accepted descriptors, bytes read and bytes sent are its choice;
      `eof` stands for end of file or an error other than EAGAIN after the last chunk. */
  datatype Event =
    | Incoming(accepted: seq<int>)
    | Broken(fd: int)
    | Readable(fd: int, chunks: seq<bytes>, eof: bool)
    | Writable(fd: int, sends: seq<Send>)

  datatype Send = Sent(n: nat) | WouldBlock | Failed

  /** Events concern open connections, and accept returns a descriptor that is not open. */
  predicate Legal(open: set<int>, listen: int, events: seq<Event>)
    decreases |events|
  {
    events == [] ||
    match events[0]
    case Incoming(fds) => AllNew(open, fds) && Legal(open + (set fd | fd in fds), listen, events[1..])
    case e => e.fd in open && e.fd != listen && Legal(open, listen, events[1..])
  }

  predicate AllNew(open: set<int>, fds: seq<int>) {
    && (forall k :: 0 <= k < |fds| ==> fds[k] >= 0 && fds[k] !in open)
    && (forall j, k :: 0 <= j < k < |fds| ==> fds[j] != fds[k])
  }

  function NewConn(id: nat): Conn { Conn([], [], false, [], [], [], [], [], 0, false, id) }

  /** ctl_event on an accepted descriptor */
  ghost function Open(s: Net, fd: int): Net {
    s.(conns := s.conns[fd := NewConn(s.nextId)], masks := s.masks[fd := false], nextId := s.nextId + 1)
  }

  lemma OpenKeepsInv(s: Net, fd: int, listen: int)
    requires Inv(s, listen) && fd >= 0 && fd !in s.conns
    ensures Inv(Open(s, fd), listen)
  {
    var s' := Open(s, fd);
    var c := s'.conns[fd];
    assert Sound(c, s'.texts) && Driven(c);
    assert MasksFit(s'.masks, s'.conns);
    assert forall k :: 0 <= k < |s.closed| ==> s.closed[k] != c.id;
  }

  lemma QueueKeepsInv(s: Net, fd: int, listen: int)
    requires Inv(s, listen) && fd in s.conns && fd != listen
    ensures Inv(Queue(s, fd), listen)
  {
    hide Core, Driven;
    QueueKeepsCore(s, fd, listen);
  }

  /** Bytes have gone from the buffer to the peer, or the connection has been queued. */
  ghost predicate Flushed(s: Net, s': Net, fd: int, c: Conn) {
    && fd in s.conns
    && c == s.conns[fd].(writeBuf := c.writeBuf, sent := c.sent)
    && c.sent + c.writeBuf == s.conns[fd].sent + s.conns[fd].writeBuf
    && |c.writeBuf| <= |s.conns[fd].writeBuf| && s.conns[fd].sent <= c.sent
    && (s' == s.(conns := s.conns[fd := c]) || s' == Queue(s.(conns := s.conns[fd := c]), fd))
  }

  lemma FlushKeepsInv(s: Net, s1: Net, s': Net, fd: int, c: Conn, listen: int)
    requires Inv(s, listen) && fd != listen && Flushed(s, s1, fd, c)
    requires s' == s1.(masks := s.masks[fd := c.writeBuf != []])
    ensures Inv(s', listen)
  {
    hide Sound, IdsUnique, Driven;
    FlushIsSound(s.conns[fd], c, s.texts);
    IdsOf(s, s');
    FlushMasks(s, s'.conns, fd, c);
  }

  lemma FlushMasks(s: Net, conns: map<int, Conn>, fd: int, c: Conn)
    requires MasksFresh(s) && fd in s.conns && conns == s.conns[fd := c]
    ensures MasksFit(s.masks[fd := c.writeBuf != []], conns)
  {
  }

  lemma FlushIsSound(c: Conn, d: Conn, texts: seq<Frame>)
    requires Sound(c, texts) && d == c.(writeBuf := d.writeBuf, sent := d.sent)
    requires d.sent + d.writeBuf == c.sent + c.writeBuf && |d.writeBuf| <= |c.writeBuf|
    ensures Sound(d, texts)
    ensures Driven(c) <==> Driven(d)
  {
    hide Consume, Join, Parse;
  }

  /** When a connection has been driven, every boundary condition holds again. */
  lemma FinishedIsInv(s: Net, s': Net, fd: int, listen: int)
    requires AllDriven(s, {fd}) && Finished(s, s', fd, listen)
    ensures Inv(s', listen)
  {
    hide Core, Driven;
    OthersStayDriven(s, s', fd);
  }

  /** Bytes have been read. */
  lemma ReadKeepsCore(s: Net, s': Net, fd: int, data: bytes, listen: int)
    requires Inv(s, listen) && fd in s.conns
    requires var c := s.conns[fd];
      s' == s.(conns := s.conns[fd := c.(readBuf := c.readBuf + data, received := c.received + data)])
    ensures Core(s', listen) && AllDriven(s', {fd})
    ensures fd in s'.pending || Lagging(s'.conns[fd])
  {
    hide Core, Driven, Lagging;
    InputKeepsCore(s, s', fd, s'.conns[fd], listen);
    if fd !in s.pending {
      ReceiveMore(s.conns[fd], s'.conns[fd], data);
    }
  }

  lemma QueuedIsInv(s: Net, fd: int, listen: int)
    requires Core(s, listen) && AllDriven(s, {fd}) && fd in s.conns && fd != listen
    ensures Inv(Queue(s, fd), listen)
  {
    hide Core, Driven;
    QueueKeepsCore(s, fd, listen);
  }

  // ------------------------------------------------------------------------ closing

  predicate Ascending(fds: seq<int>) { forall j, k :: 0 <= j < k < |fds| ==> fds[j] < fds[k] }

  /** One element put in its place, unless it is there already */
  function Insert(x: int, fds: seq<int>): (r: seq<int>)
    requires Ascending(fds)
    ensures Ascending(r) && forall y :: y in r <==> y == x || y in fds
  {
    if fds == [] || x < fds[0] then [x] + fds
    else if x == fds[0] then fds
    else
      var rest := Insert(x, fds[1..]);
      assert forall y :: y in rest ==> fds[0] < y;
      assert forall k :: 0 <= k < |rest| ==> rest[k] in rest && fds[0] < rest[k];
      [fds[0]] + rest
  }

  /** `sort` and `unique` */
  function SortUnique(fds: seq<int>): (r: seq<int>)
    ensures Ascending(r) && forall y :: y in r <==> y in fds
  {
    if fds == [] then [] else Insert(fds[0], SortUnique(fds[1..]))
  }

  /** ctl_event on a descriptor to be closed */
  ghost function CloseOne(s: Net, fd: int): Net
    requires fd in s.conns
  {
    s.(conns := s.conns - {fd}, clients := s.clients - {fd}, masks := s.masks - {fd},
       closed := s.closed + [s.conns[fd].id])
  }

  /** All connections queued are gone, each of them closed once, and nothing is queued any more. */
  ghost predicate Drained(s: Net, s': Net) {
    && (forall fd :: fd in s'.conns <==> fd in s.conns && fd !in s.pending)
    && (forall fd :: fd in s'.conns ==> s'.conns[fd] == s.conns[fd])
    && (forall fd :: fd in s'.clients <==> fd in s.clients && fd !in s.pending)
    && (forall fd :: fd in s'.masks <==> fd in s.masks && fd !in s.pending)
    && (forall fd :: fd in s'.masks ==> s'.masks[fd] == s.masks[fd])
    && s'.pending == [] && s'.queuedIds == [] && s'.texts == s.texts && s'.nextId == s.nextId
    && s.closed <= s'.closed
    && (forall id :: id in s'.closed[|s.closed|..] <==> id in s.queuedIds)
    && (forall j, k :: |s.closed| <= j < k < |s'.closed| ==> s'.closed[j] != s'.closed[k])
  }

  lemma DrainedIsInv(s: Net, s': Net, listen: int)
    requires Inv(s, listen) && Drained(s, s')
    ensures Inv(s', listen)
  {
    hide Sound, Driven;
    forall fd | fd in s'.conns ensures s'.conns[fd].id !in s'.closed {
      forall k | 0 <= k < |s.queuedIds| ensures s.queuedIds[k] != s.conns[fd].id {
        assert s.pending[k] in s.conns && s.pending[k] != fd;
      }
      assert s'.closed == s.closed + s'.closed[|s.closed|..];
    }
    NewIds(s, s');
    assert MasksFit(s'.masks, s'.conns);
  }

  lemma NewIds(s: Net, s': Net)
    requires QueueSafe(s) && IdsUnique(s) && Drained(s, s')
    ensures forall k :: 0 <= k < |s'.closed| ==> s'.closed[k] < s'.nextId
    ensures forall j, k :: 0 <= j < k < |s'.closed| ==> s'.closed[j] != s'.closed[k]
  {
    hide Sound, Driven;
    forall k | |s.closed| <= k < |s'.closed|
      ensures s'.closed[k] < s'.nextId && s'.closed[k] !in s.closed
    {
      assert s'.closed[k] == s'.closed[|s.closed|..][k - |s.closed|];
      assert s'.closed[k] in s.queuedIds;
      var m :| 0 <= m < |s.queuedIds| && s.queuedIds[m] == s'.closed[k];
      var fd := s.pending[m];
      assert fd in s.conns && s.conns[fd].id == s'.closed[k];
      assert s.conns[fd].id < s.nextId && s.conns[fd].id !in s.closed;
    }
  }

  lemma Opened(s: Net, s': Net, fd: int)
    requires fd !in s.conns
    requires s'.conns == s.conns[fd := NewConn(s.nextId)] && s'.masks == s.masks[fd := false]
    requires s' == s.(conns := s'.conns, masks := s'.masks, nextId := s.nextId + 1)
    ensures s' == Open(s, fd)
  {
  }

  function Concat(chunks: seq<bytes>): bytes {
    if chunks == [] then [] else Concat(chunks[..|chunks| - 1]) + chunks[|chunks| - 1]
  }

  ghost function ReadInto(s: Net, fd: int, data: bytes): Net
    requires fd in s.conns
  {
    var c := s.conns[fd];
    s.(conns := s.conns[fd := c.(readBuf := c.readBuf + data, received := c.received + data)])
  }

  lemma ReadKeeps(s: Net, s': Net, fd: int, data: bytes, listen: int)
    requires Inv(s, listen) && fd in s.conns && s' == ReadInto(s, fd, data)
    ensures Core(s', listen) && AllDriven(s', {fd}) && fd in s'.conns
    ensures fd in s'.pending || Lagging(s'.conns[fd])
    ensures s'.conns[fd].received == s.conns[fd].received + data && s'.closed == s.closed
    ensures s'.conns[fd].handled == s.conns[fd].handled && s'.texts == s.texts && s'.pending == s.pending
  {
    hide Inv, Core, AllDriven, Lagging;
    ReadKeepsCore(s, s', fd, data, listen);
  }

  lemma FinishedKeeps(s: Net, s': Net, fd: int, listen: int)
    requires AllDriven(s, {fd}) && Finished(s, s', fd, listen)
    ensures Inv(s', listen) && s'.closed == s.closed && s.pending <= s'.pending
    ensures fd in s.conns && fd in s'.conns && Logged(s, s', fd)
    ensures s'.conns[fd].received == s.conns[fd].received
  {
    hide Core, Driven, Logged;
    FinishedIsInv(s, s', fd, listen);
  }

  /** The descriptors `done` have been closed, one after the other. */
  ghost predicate ClosedSoFar(s: Net, s': Net, done: seq<int>) {
    && (forall k :: 0 <= k < |done| ==> done[k] in s.conns)
    && (forall fd :: fd in s'.conns <==> fd in s.conns && fd !in done)
    && (forall fd :: fd in s'.conns ==> s'.conns[fd] == s.conns[fd])
    && (forall fd :: fd in s'.clients <==> fd in s.clients && fd !in done)
    && (forall fd :: fd in s'.masks <==> fd in s.masks && fd !in done)
    && (forall fd :: fd in s'.masks ==> s'.masks[fd] == s.masks[fd])
    && s' == s.(conns := s'.conns, clients := s'.clients, masks := s'.masks, closed := s'.closed)
    && s.closed <= s'.closed && |s'.closed| == |s.closed| + |done|
    && (forall k :: 0 <= k < |done| ==> s'.closed[|s.closed| + k] == s.conns[done[k]].id)
  }

  lemma NoneClosedYet(s: Net)
    ensures ClosedSoFar(s, s, [])
  {
  }

  lemma AllQueuedAreOpen(s: Net, listen: int)
    requires Inv(s, listen)
    ensures forall fd :: fd in s.pending ==> fd in s.conns
  {
    hide AllSound, AllDriven, IdsUnique;
  }

  lemma NotClosedYet(s: Net, s1: Net, fds: seq<int>, i: nat)
    requires Ascending(fds) && i < |fds| && (forall fd :: fd in fds ==> fd in s.conns)
    requires ClosedSoFar(s, s1, fds[..i])
    ensures fds[i] in s1.conns
  {
    assert fds[i] in fds;
    assert forall k :: 0 <= k < i ==> fds[..i][k] < fds[i];
  }

  lemma NothingToClose(s: Net, listen: int)
    requires Inv(s, listen) && s.pending == []
    ensures Drained(s, s)
  {
    hide AllSound, AllDriven;
  }

  lemma CloseStep(s: Net, s1: Net, s2: Net, fds: seq<int>, i: nat)
    requires Ascending(fds) && i < |fds| && ClosedSoFar(s, s1, fds[..i])
    requires fds[i] in s1.conns && s2 == CloseOne(s1, fds[i])
    ensures ClosedSoFar(s, s2, fds[..i + 1])
  {
    assert fds[..i + 1] == fds[..i] + [fds[i]];
  }

  lemma ClosedIsDrained(s: Net, s1: Net, s': Net, fds: seq<int>, listen: int)
    requires Inv(s, listen) && Ascending(fds) && ClosedSoFar(s, s1, fds)
    requires forall fd :: fd in fds <==> fd in s.pending
    requires s' == s1.(pending := [], queuedIds := [])
    ensures Drained(s, s')
  {
    hide AllSound, AllDriven;
    var n := |s.closed|;
    var added := s'.closed[n..];
    forall id | id in added ensures id in s.queuedIds {
      var k :| 0 <= k < |added| && added[k] == id;
      assert id == s.conns[fds[k]].id && fds[k] in fds;
      var m :| 0 <= m < |s.pending| && s.pending[m] == fds[k];
      assert s.queuedIds[m] == id;
    }
    forall id | id in s.queuedIds ensures id in added {
      var m :| 0 <= m < |s.queuedIds| && s.queuedIds[m] == id;
      assert s.pending[m] in s.pending;
      var k :| 0 <= k < |fds| && fds[k] == s.pending[m];
      assert added[k] == id;
    }
    forall j, k | n <= j < k < |s'.closed| ensures s'.closed[j] != s'.closed[k] {
      assert s'.closed[j] == s.conns[fds[j - n]].id && s'.closed[k] == s.conns[fds[k - n]].id;
      assert fds[j - n] != fds[k - n];
    }
  }

  lemma LegalSplits(open: set<int>, listen: int, events: seq<Event>)
    requires events != [] && Legal(open, listen, events)
    ensures Legal(open, listen, [events[0]])
    ensures Legal(open + (if events[0].Incoming? then (set fd | fd in events[0].accepted) else {}), listen, events[1..])
  {
    assert open + {} == open;
  }

  lemma DrainedKeeps(s: Net, s': Net)
    requires Drained(s, s')
    ensures s'.pending == [] && s'.texts == s.texts && s.closed <= s'.closed
  {
  }

  /** What is left of a buffer after the given results of send, and whether sending failed */
  function Flush(buf: bytes, sends: seq<Send>, k: nat): (bytes, bool)
    requires k <= |sends|
    decreases |sends| - k
  {
    if buf == [] || k == |sends| || sends[k] == WouldBlock then (buf, false)
    else if sends[k].Failed? || sends[k].n == 0 then (buf, true)
    else Flush(buf[Min(sends[k].n, |buf|)..], sends, k + 1)
  }

  lemma {:induction false} ConcatGrows(chunks: seq<bytes>, i: nat)
    requires i <= |chunks|
    ensures |Concat(chunks[..i])| <= |Concat(chunks)|
    decreases |chunks|
  {
    if i < |chunks| {
      assert chunks[..|chunks| - 1][..i] == chunks[..i];
      ConcatGrows(chunks[..|chunks| - 1], i);
    } else {
      assert chunks[..i] == chunks;
    }
  }

  /** Two connections that received the same bytes and are up to date have handled the same
      frames, whatever the pieces were. */
  lemma SameBytesSameFrames(c: Conn, d: Conn)
    requires Driven(c) && Driven(d) && c.received == d.received
    ensures c.handled == d.handled && c.upgraded == d.upgraded && c.readBuf == d.readBuf
  {
  }
}
