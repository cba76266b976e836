/** The payload transfer between two bots (bot-2-bot.c): the handlers as functions on the transfer state of
    a bot, and the two bots with the channels between them. */
module Payload {

  import opened CInt

  datatype Pointer = Null | Source(offset: nat) | Mapped(offset: nat)

  /** A row of the table of payload types; data is NULL if the type is switched off. */
  datatype Mapping = Mapping(active: bool, size: int)

  /** bot_2_bot_payload_size, bot_2_bot_data, addr_active_transfer (0: none) and bot_2_bot_callback, with the
      memory they point to. `seen` lists what each callback found in the buffer, `corrupt` says that a write
      went past its end. */
  datatype Bot = Bot(address: nat, size: int, data: Pointer, partner: nat, callback: bool,
                     source: seq<byte>, buffer: seq<byte>, seen: seq<seq<byte>>, corrupt: bool)

  datatype Command =
    | Request(from: nat, size: int, kind: nat)
    | Ack(from: nat, window: int, result: int)
    | Data(from: nat, last: int, bytes: seq<byte>)
    | Silence

  datatype Reaction = Reaction(bot: Bot, answer: Command)

  predicate Idle(b: Bot) {
    b.data == Null && b.partner == 0 && !b.callback
  }

  /** bot_2_bot_send_payload_request, up to the wait. */
  function SendRequest(b: Bot, to: nat, kind: nat, data: seq<byte>, size: int): Reaction {
    if to == b.address then Reaction(b, Silence)
    else Reaction(b.(source := data, data := Source(0), size := size, partner := to), Request(b.address, size, kind))
  }

  datatype Outcome = Waiting | Returned(code: int)

  /** What the wait of the sender returns. */
  function SendResult(b: Bot): Outcome {
    if b.size >= 0 then Waiting else Returned(if b.size == -2 then 0 else -5)
  }

  /** The conditions under which a request is granted. */
  predicate Acceptable(mapping: Mapping, size: int, moving: bool) {
    mapping.active && size <= mapping.size && !moving
  }

  /** bot_2_bot_handle_payload_request; the memory of the payload type becomes the buffer. */
  function HandleRequest(b: Bot, c: Command, mapping: Mapping, memory: seq<byte>, moving: bool, window: int): Reaction
    requires c.Request?
  {
    if !Acceptable(mapping, c.size, moving) then Reaction(b.(size := 0), Ack(b.address, 0, 1))
    else Reaction(b.(size := c.size, data := Mapped(0), partner := c.from, callback := true, buffer := memory),
                  Ack(b.address, window, 0))
  }

  /** The row of the table of n payload types that decides on a type; `rows` goes on with whatever lies behind
      the table. A type beyond n is refused whatever its row holds. */
  function Selected(rows: seq<Mapping>, n: nat, kind: nat): Mapping
    requires kind < |rows|
  {
    if kind > n then rows[kind].(active := false) else rows[kind]
  }

  /** The test lets one type too many pass: the type equal to the number of types is judged by the row behind
      the table. */
  lemma TypeTest(b: Bot, c: Command, rows: seq<Mapping>, n: nat, memory: seq<byte>, moving: bool, window: int)
    requires c.Request? && c.kind < |rows|
    ensures var a := HandleRequest(b, c, Selected(rows, n, c.kind), memory, moving, window).answer;
      a == Ack(b.address, window, 0) || a == Ack(b.address, 0, 1)
    ensures HandleRequest(b, c, Selected(rows, n, c.kind), memory, moving, window).answer.result == 0
      <==> c.kind <= n && rows[c.kind].active && c.size <= rows[c.kind].size && !moving
    ensures c.kind == n && rows[n].active && c.size <= rows[n].size && !moving ==>
      HandleRequest(b, c, Selected(rows, n, n), memory, moving, window).bot.data == Mapped(0)
  {
    assert c.kind > n ==> !Acceptable(Selected(rows, n, c.kind), c.size, moving);
  }

  function Bytes(s: seq<byte>, from: nat, n: nat): seq<byte> {
    if from + n <= |s| then s[from..from + n] else []
  }

  /** The memory a pointer points into, and the pointer moved on. */
  function Memory(b: Bot): seq<byte> {
    if b.data.Source? then b.source else b.buffer
  }

  function Advanced(p: Pointer, n: nat): Pointer {
    match p
    case Null => Null
    case Source(offset) => Source(offset + n)
    case Mapped(offset) => Mapped(offset + n)
  }

  /** bot_2_bot_handle_payload_ack. */
  function HandleAck(b: Bot, c: Command): Reaction
    requires c.Ack?
  {
    if b.data == Null || b.partner != c.from then Reaction(b, Silence)
    else if c.result == 0 then
      var window := c.window % 256;
      var rest := b.size - window;
      var n := if rest < 0 then (window + rest) % 256 else window;
      Reaction(b.(size := if rest < 0 then 0 else rest, data := Advanced(b.data, n)),
               Data(b.address, if rest < 0 then 1 else 0, Bytes(Memory(b), b.data.offset, n)))
    else if c.result == 1 then Reaction(b.(callback := false, data := Null, size := -1, partner := 0), Silence)
    else if c.result == 2 then
      Reaction(b.(callback := false, data := Null, size := if b.size != 0 then -1 else -2, partner := 0), Silence)
    else Reaction(b, Silence)
  }

  /** `bytes` written where the data pointer points, or past the end of that memory. */
  function Written(b: Bot, bytes: seq<byte>): Bot {
    if b.data == Null || b.data.offset + |bytes| > |Memory(b)| then b.(corrupt := true)
    else
      var at := b.data.offset;
      var memory := Memory(b)[..at] + bytes + Memory(b)[at + |bytes|..];
      if b.data.Source? then b.(source := memory) else b.(buffer := memory)
  }

  /** bot_2_bot_handle_payload_data, of whose bytes `read` could be read. */
  function HandleData(b: Bot, c: Command, read: nat, window: int): Reaction
    requires c.Data? && read <= |c.bytes|
  {
    if b.partner != c.from then Reaction(b, Silence)
    else
      var w := Written(b, c.bytes[..read]);
      var next := Advanced(b.data, read);
      if read != |c.bytes| then Reaction(w.(data := Null, callback := false, size := 0), Ack(b.address, 0, 1))
      else if c.last == 1 then
        Reaction(w.(data := Null, callback := false, size := 0, partner := 0,
                    seen := b.seen + [if next.Null? then [] else Bytes(Memory(w), 0, next.offset)]), Ack(b.address, 0, 2))
      else Reaction(w.(data := next), Ack(b.address, window, 0))
  }

  /* ---- Two bots ---- */

  datatype Setting = Setting(mapping: Mapping, memory: seq<byte>, moving: bool, window: int)

  predicate Sensible(e: Setting) {
    1 <= e.window <= 255 && (e.mapping.active ==> |e.memory| == e.mapping.size)
  }

  /** Sender and receiver, with the commands under way in order. */
  datatype System = System(s: Bot, r: Bot, toR: seq<Command>, toS: seq<Command>)

  function Post(channel: seq<Command>, c: Command): seq<Command> {
    if c == Silence then channel else channel + [c]
  }

  datatype Event =
    | ToReceiver(read: nat)        // the receiver handles the next command; `read` bytes of its data can be read
    | ToSender
    | StrayToSender(c: Command)    // a command of a third bot
    | StrayToReceiver(c: Command)

  predicate Stray(c: Command, partner: nat) {
    (c.Ack? || c.Data?) && c.from != 0 && c.from != partner
  }

  /** The events that can happen next. */
  predicate Enabled(y: System, ev: Event) {
    match ev
    case ToReceiver(read) => y.toR != [] && !y.toR[0].Silence? && (y.toR[0].Data? ==> read <= |y.toR[0].bytes|)
    case ToSender => y.toS != [] && !y.toS[0].Silence?
    case StrayToSender(c) => Stray(c, y.r.address)
    case StrayToReceiver(c) => Stray(c, y.s.address)
  }

  /** command_evaluate at a bot. */
  function React(b: Bot, c: Command, e: Setting, read: nat): Reaction
    requires !c.Silence? && (c.Data? ==> read <= |c.bytes|)
  {
    match c
    case Request(_, _, _) => HandleRequest(b, c, e.mapping, e.memory, e.moving, e.window)
    case Ack(_, _, _) => HandleAck(b, c)
    case Data(_, _, _) => HandleData(b, c, read, e.window)
  }

  function Next(y: System, e: Setting, ev: Event): System
    requires Enabled(y, ev)
  {
    match ev
    case ToReceiver(read) =>
      var a := React(y.r, y.toR[0], e, read);
      y.(r := a.bot, toR := y.toR[1..], toS := Post(y.toS, a.answer))
    case ToSender =>
      var a := React(y.s, y.toS[0], e, if y.toS[0].Data? then |y.toS[0].bytes| else 0);
      y.(s := a.bot, toS := y.toS[1..], toR := Post(y.toR, a.answer))
    case StrayToSender(c) =>
      y.(s := React(y.s, c, e, if c.Data? then |c.bytes| else 0).bot)
    case StrayToReceiver(c) =>
      y.(r := React(y.r, c, e, if c.Data? then |c.bytes| else 0).bot)
  }

  /* ---- The phases of a transfer ---- */

  datatype Phase =
    | Requested
    | Granted(k: nat)       // k bytes arrived, the next window is granted
    | Sending(k: nat)       // a full window after the first k bytes is under way
    | Ending(k: nat)        // the rest is under way, maybe nothing
    | Received              // the callback ran, the last ack is under way
    | Done
    | Refusing              // a negative ack is under way
    | Failed

  /** The sender has passed on the first k bytes. */
  predicate SenderAt(y: System, k: nat) {
    y.s.data == Source(k) && y.s.size == |y.s.source| - k && y.s.partner == y.r.address
  }

  /** The receiver has got the first k bytes. */
  predicate ReceiverAt(y: System, k: nat) {
    && y.r.data == Mapped(k) && y.r.partner == y.s.address && y.r.callback && y.r.seen == []
    && k <= |y.s.source| <= |y.r.buffer| && y.r.buffer[..k] == y.s.source[..k]
  }

  predicate In(y: System, e: Setting, p: Phase) {
    match p
    case Requested =>
      && SenderAt(y, 0) && Idle(y.r) && y.r.seen == []
      && |y.toR| == 1 && y.toR[0].Request? && y.toR[0].from == y.s.address && y.toR[0].size == |y.s.source| && y.toS == []
    case Granted(k) =>
      && SenderAt(y, k) && ReceiverAt(y, k) && y.toR == [] && y.toS == [Ack(y.r.address, e.window, 0)]
    case Sending(k) =>
      && 0 <= e.window <= |y.s.source| - k && SenderAt(y, k + e.window) && ReceiverAt(y, k)
      && y.toR == [Data(y.s.address, 0, y.s.source[k..k + e.window])] && y.toS == []
    case Ending(k) =>
      && SenderAt(y, |y.s.source|) && ReceiverAt(y, k) && |y.s.source| - k < e.window
      && y.toR == [Data(y.s.address, 1, y.s.source[k..])] && y.toS == []
    case Received =>
      && SenderAt(y, |y.s.source|) && Idle(y.r) && y.r.seen == [y.s.source]
      && y.toR == [] && y.toS == [Ack(y.r.address, 0, 2)]
    case Done =>
      && Idle(y.s) && y.s.size == -2 && Idle(y.r) && y.r.seen == [y.s.source] && y.toR == [] && y.toS == []
    case Refusing =>
      && y.s.data.Source? && y.s.size >= 0 && y.s.partner == y.r.address && y.r.data == Null && !y.r.callback
      && y.r.partner in {0, y.s.address} && y.r.seen == [] && y.toR == [] && y.toS == [Ack(y.r.address, 0, 1)]
    case Failed =>
      && Idle(y.s) && y.s.size == -1 && y.r.data == Null && !y.r.callback && y.r.partner in {0, y.s.address}
      && y.r.seen == [] && y.toR == [] && y.toS == []
  }

  ghost predicate Safe(y: System, e: Setting) {
    && y.s.address != y.r.address && y.s.address != 0 && y.r.address != 0 && !y.s.callback
    && !y.s.corrupt && !y.r.corrupt
    && exists p :: In(y, e, p)
  }

  /** The system after bot_2_bot_send_payload_request was called. */
  function Begin(s: Bot, r: Bot, kind: nat, data: seq<byte>): System {
    var a := SendRequest(s, r.address, kind, data, |data|);
    System(a.bot, r, Post([], a.answer), [])
  }

  lemma BeginSafe(s: Bot, r: Bot, kind: nat, data: seq<byte>, e: Setting)
    requires s.address != r.address && s.address != 0 && r.address != 0
    requires Idle(s) && Idle(r) && r.seen == [] && !s.corrupt && !r.corrupt
    ensures var y := Begin(s, r, kind, data); Safe(y, e) && In(y, e, Requested) && y.s.source == data
  {
    var y := Begin(s, r, kind, data);
    assert In(y, e, Requested);
  }

  /* ---- One step ---- */

  /** Where an event leads. */
  function After(y: System, e: Setting, p: Phase, ev: Event): Phase {
    if ev.StrayToSender? || ev.StrayToReceiver? then p
    else
      match p
      case Requested => if Acceptable(e.mapping, |y.s.source|, e.moving) then Granted(0) else Refusing
      case Granted(k) => if k + e.window <= |y.s.source| then Sending(k) else Ending(k)
      case Sending(k) => if ev.ToReceiver? && ev.read == e.window then Granted(k + e.window) else Refusing
      case Ending(k) => if ev.ToReceiver? && ev.read == |y.s.source| - k then Received else Refusing
      case Received => Done
      case Refusing => Failed
      case _ => p
  }

  lemma StrayIsIgnored(b: Bot, c: Command, e: Setting, partner: nat)
    requires Stray(c, partner) && b.partner in {0, partner}
    ensures React(b, c, e, if c.Data? then |c.bytes| else 0).bot == b
  {
  }

  lemma StraySteps(y: System, e: Setting, p: Phase, ev: Event)
    requires Safe(y, e) && In(y, e, p) && Enabled(y, ev) && (ev.StrayToSender? || ev.StrayToReceiver?)
    ensures Next(y, e, ev) == y
  {
    if ev.StrayToSender? {
      StrayIsIgnored(y.s, ev.c, e, y.r.address);
    } else {
      StrayIsIgnored(y.r, ev.c, e, y.s.address);
    }
  }

  lemma RequestStep(y: System, e: Setting, ev: Event)
    requires Sensible(e) && Safe(y, e) && In(y, e, Requested) && Enabled(y, ev) && ev.ToReceiver?
    ensures In(Next(y, e, ev), e, After(y, e, Requested, ev))
    ensures Next(y, e, ev).s == y.s && !Next(y, e, ev).r.corrupt && Next(y, e, ev).r.address == y.r.address
  {
    var z := Next(y, e, ev);
    assert z.toR == [];
  }

  lemma GrantStep(y: System, e: Setting, k: nat)
    requires Sensible(e) && Safe(y, e) && In(y, e, Granted(k))
    ensures var z := Next(y, e, ToSender);
      && In(z, e, After(y, e, Granted(k), ToSender)) && z.r == y.r && !z.s.corrupt && !z.s.callback
      && z.s.address == y.s.address && z.s.source == y.s.source
  {
    var z := Next(y, e, ToSender);
    assert z.toS == [];
    assert y.s.source[k..] == y.s.source[k..|y.s.source|];
  }

  lemma DataStep(y: System, e: Setting, k: nat, read: nat)
    requires Sensible(e) && Safe(y, e) && In(y, e, Sending(k)) && read <= e.window
    ensures var z := Next(y, e, ToReceiver(read));
      && In(z, e, After(y, e, Sending(k), ToReceiver(read))) && z.s == y.s && !z.r.corrupt && z.r.address == y.r.address
  {
    var c, z := y.toR[0], Next(y, e, ToReceiver(read));
    assert z.toR == [];
    if read == e.window {
      assert c.bytes[..read] == c.bytes;
      assert z.r.buffer[..k + read] == y.s.source[..k] + y.s.source[k..k + read] == y.s.source[..k + read];
    }
  }

  lemma LastStep(y: System, e: Setting, k: nat, read: nat)
    requires Sensible(e) && Safe(y, e) && In(y, e, Ending(k)) && read <= |y.s.source| - k
    ensures var z := Next(y, e, ToReceiver(read));
      && In(z, e, After(y, e, Ending(k), ToReceiver(read))) && z.s == y.s && !z.r.corrupt && z.r.address == y.r.address
  {
    var c, z := y.toR[0], Next(y, e, ToReceiver(read));
    assert z.toR == [];
    if read == |y.s.source| - k {
      assert c.bytes[..read] == c.bytes;
      assert z.r.buffer[..|y.s.source|] == y.s.source[..k] + y.s.source[k..] == y.s.source;
    }
  }

  lemma EndStep(y: System, e: Setting, p: Phase)
    requires Safe(y, e) && In(y, e, p) && (p == Received || p == Refusing)
    ensures var z := Next(y, e, ToSender);
      && In(z, e, After(y, e, p, ToSender)) && z.r == y.r && !z.s.corrupt && !z.s.callback
      && z.s.address == y.s.address && z.s.source == y.s.source
  {
    var z := Next(y, e, ToSender);
    assert z.toS == [];
  }

  /** Every event keeps the transfer safe. */
  lemma StepSafe(y: System, e: Setting, p: Phase, ev: Event)
    requires Sensible(e) && Safe(y, e) && In(y, e, p) && Enabled(y, ev)
    ensures var z := Next(y, e, ev);
      && Safe(z, e) && In(z, e, After(y, e, p, ev))
      && z.s.source == y.s.source && z.s.address == y.s.address && z.r.address == y.r.address
  {
    if ev.StrayToSender? || ev.StrayToReceiver? {
      StraySteps(y, e, p, ev);
    } else {
      match p
      case Requested => RequestStep(y, e, ev);
      case Granted(k) => GrantStep(y, e, k);
      case Sending(k) => DataStep(y, e, k, ev.read);
      case Ending(k) => LastStep(y, e, k, ev.read);
      case Received => EndStep(y, e, p);
      case Refusing => EndStep(y, e, p);
      case Done =>
      case Failed =>
    }
  }

  /* ---- Whole runs ---- */

  predicate Possible(y: System, e: Setting, events: seq<Event>)
    decreases |events|
  {
    events == [] || (Enabled(y, events[0]) && Possible(Next(y, e, events[0]), e, events[1..]))
  }

  function RunSystem(y: System, e: Setting, events: seq<Event>): System
    requires Possible(y, e, events)
    decreases |events|
  {
    if events == [] then y else RunSystem(Next(y, e, events[0]), e, events[1..])
  }

  lemma {:induction false} RunSafe(y: System, e: Setting, p: Phase, events: seq<Event>)
    requires Sensible(e) && Safe(y, e) && In(y, e, p) && Possible(y, e, events)
    ensures var z := RunSystem(y, e, events);
      Safe(z, e) && z.s.source == y.s.source && z.s.address == y.s.address && z.r.address == y.r.address
    decreases |events|
  {
    if events != [] {
      StepSafe(y, e, p, events[0]);
      RunSafe(Next(y, e, events[0]), e, After(y, e, p, events[0]), events[1..]);
    }
  }

  function Sum(channel: seq<Command>): nat {
    if channel == [] then 0 else (if channel[0].Data? then |channel[0].bytes| else 0) + Sum(channel[1..])
  }

  /** Bytes the receiver has, by its pointer or by what the callback was given. */
  function Delivered(b: Bot): nat {
    if b.data.Mapped? then b.data.offset else if b.seen != [] then |b.seen[|b.seen| - 1]| else 0
  }

  /** In every reachable state: nothing is written past the buffer, its contents are a beginning of the
      data, the callback ran at most once and then on all the data, and the sender reports success only
      after it ran. Unless the transfer was refused, no byte is lost or doubled. */
  lemma Consequences(y: System, e: Setting)
    requires Sensible(e) && Safe(y, e)
    ensures !y.r.corrupt && !y.s.corrupt
    ensures y.r.data.Mapped? ==> y.r.data.offset <= |y.r.buffer| && y.r.buffer[..y.r.data.offset] <= y.s.source
    ensures |y.r.seen| <= 1 && (y.r.seen != [] ==> y.r.seen[0] == y.s.source)
    ensures SendResult(y.s) == Returned(0) ==> y.r.seen == [y.s.source]
    ensures y.r.data.Mapped? || y.r.seen != [] ==>
      Delivered(y.r) + Sum(y.toR) + (if y.s.size >= 0 then y.s.size else 0) == |y.s.source|
    ensures |y.toR| + |y.toS| <= 1
  {
    var p :| In(y, e, p);
    match p
    case Granted(k) => assert y.s.source[..k] <= y.s.source;
    case Sending(k) =>
      assert y.s.source[..k] <= y.s.source;
      assert Sum(y.toR) == e.window;
    case Ending(k) =>
      assert y.s.source[..k] <= y.s.source;
      assert Sum(y.toR) == |y.s.source| - k;
    case _ =>
  }

  /** The guarantees of the protocol, over every run. */
  lemma TransferIsSafe(s: Bot, r: Bot, kind: nat, data: seq<byte>, e: Setting, events: seq<Event>)
    requires s.address != r.address && s.address != 0 && r.address != 0 && Sensible(e)
    requires Idle(s) && Idle(r) && r.seen == [] && !s.corrupt && !r.corrupt
    requires Possible(Begin(s, r, kind, data), e, events)
    ensures var y := RunSystem(Begin(s, r, kind, data), e, events);
      && !y.r.corrupt && (y.r.data.Mapped? ==> y.r.data.offset <= |y.r.buffer| && y.r.buffer[..y.r.data.offset] <= data)
      && (y.r.seen == [] || y.r.seen == [data])
      && (SendResult(y.s) == Returned(0) ==> y.r.seen == [data])
  {
    BeginSafe(s, r, kind, data, e);
    RunSafe(Begin(s, r, kind, data), e, Requested, events);
    Consequences(RunSystem(Begin(s, r, kind, data), e, events), e);
  }

  /* ---- Progress ---- */

  /** Commands still to be handled if all reads succeed: an upper bound. */
  function Measure(y: System, p: Phase): nat {
    match p
    case Requested => 2 * |y.s.source| + 5
    case Granted(k) => if k <= |y.s.source| then 2 * (|y.s.source| - k) + 3 else 0
    case Sending(k) => if k <= |y.s.source| then 2 * (|y.s.source| - k) + 2 else 0
    case Ending(_) => 2
    case Received => 1
    case Refusing => 1
    case Done => 0
    case Failed => 0
  }

  predicate Foreign(ev: Event) {
    ev.StrayToSender? || ev.StrayToReceiver?
  }

  /** Every command handled brings the end nearer, and until then there is one to handle. */
  lemma Progress(y: System, e: Setting, p: Phase, ev: Event)
    requires Sensible(e) && Safe(y, e) && In(y, e, p) && Enabled(y, ev) && !Foreign(ev)
    ensures Measure(Next(y, e, ev), After(y, e, p, ev)) < Measure(y, p)
  {
    StepSafe(y, e, p, ev);
  }

  lemma NoDeadlock(y: System, e: Setting, p: Phase)
    requires Sensible(e) && Safe(y, e) && In(y, e, p)
    ensures p.Done? || p.Failed? || Enabled(y, ToSender) || Enabled(y, ToReceiver(0))
    ensures (p.Done? || p.Failed?) <==> SendResult(y.s) != Waiting
  {
  }

  /** With readable data, the transfer ends, and with success exactly if the request was acceptable. */
  function Whole(y: System): Event
    requires y.toR != [] || y.toS != []
  {
    if y.toS != [] then ToSender else ToReceiver(if y.toR[0].Data? then |y.toR[0].bytes| else 0)
  }

  lemma {:induction false} EndsAsItShould(y: System, e: Setting, p: Phase) returns (events: seq<Event>)
    requires Sensible(e) && Safe(y, e) && In(y, e, p)
    ensures Possible(y, e, events) && (forall ev :: ev in events ==> !Foreign(ev))
    ensures var code := SendResult(RunSystem(y, e, events).s);
      code == Returned(if Hopeful(y, e, p) then 0 else -5)
    decreases Measure(y, p)
  {
    if p.Done? || p.Failed? {
      events := [];
    } else {
      NoDeadlock(y, e, p);
      var ev := Whole(y);
      assert Enabled(y, ev);
      StepSafe(y, e, p, ev);
      Progress(y, e, p, ev);
      var z := Next(y, e, ev);
      var rest := EndsAsItShould(z, e, After(y, e, p, ev));
      events := [ev] + rest;
      assert events[1..] == rest;
    }
  }

  predicate Hopeful(y: System, e: Setting, p: Phase) {
    match p
    case Requested => e.mapping.active && |y.s.source| <= e.mapping.size && !e.moving
    case Refusing => false
    case Failed => false
    case _ => true
  }

  /** A request for -2 bytes is reported as a success at once, before anybody answered. */
  lemma NegativeSize(b: Bot, to: nat, kind: nat)
    requires to != b.address
    ensures SendResult(SendRequest(b, to, kind, [], -2).bot) == Returned(0)
  {
  }
}
