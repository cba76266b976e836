/** The payload handlers of bot-2-bot.c on the global transfer state of a bot. */
module PayloadBot {
  import opened CInt
  import opened Payload
  import P = Payload

  class Transfer {
    const address: nat
    var size: int                   // bot_2_bot_payload_size
    var data: Pointer               // bot_2_bot_data
    var partner: nat                // addr_active_transfer
    var callback: bool
    var source: array<byte>
    var buffer: array<byte>
    ghost var seen: seq<seq<byte>>
    ghost var corrupt: bool

    ghost function Snapshot(): Bot
      reads this, source, buffer
    {
      Bot(address, size, data, partner, callback, source[..], buffer[..], seen, corrupt)
    }

    constructor (address: nat)
      ensures fresh(source) && fresh(buffer) && source != buffer && this.address == address
      ensures Snapshot() == Bot(address, 0, Null, 0, false, [], [], [], false)
    {
      this.address := address;
      size, data, partner, callback, seen, corrupt := 0, Null, 0, false, [], false;
      source, buffer := new byte[0], new byte[0];
    }

    method SendRequest(to: nat, kind: nat, bytes: array<byte>, count: int) returns (c: Command)
      modifies this
      ensures Reaction(Snapshot(), c) == P.SendRequest(old(Snapshot()), to, kind, bytes[..], count)
      ensures buffer == old(buffer) && (source == bytes || source == old(source))
      ensures to == address ==> c == Silence && unchanged(this)
      ensures to != address ==>
        && c == Request(address, count, kind) && source == bytes && data == Source(0) && size == count && partner == to
        && callback == old(callback)
    {
      if to == address {
        return Silence;
      }
      c := Request(address, count, kind);
      source, data, size, partner := bytes, Source(0), count, to;
    }

    /** The table has n rows; `rows` and `memory` go on with what lies behind it. */
    method HandleRequest(c: Command, n: nat, rows: seq<Mapping>, memory: seq<array<byte>>, moving: bool, window: int)
      returns (answer: Command)
      requires c.Request? && n < |rows| == |memory| == 256
      modifies this
      ensures var kind := c.kind % 256;
        Reaction(Snapshot(), answer)
          == P.HandleRequest(old(Snapshot()), c, Selected(rows, n, kind), memory[kind][..], moving, window)
      ensures source == old(source) && (buffer == memory[c.kind % 256] || buffer == old(buffer))
      ensures var kind := c.kind % 256;
        if kind <= n && rows[kind].active && c.size <= rows[kind].size && !moving then
          && answer == Ack(address, window, 0) && size == c.size
          && data == Mapped(0) && partner == c.from && callback && buffer == memory[kind]
        else
          && answer == Ack(address, 0, 1) && size == 0
          && data == old(data) && partner == old(partner) && callback == old(callback) && buffer == old(buffer)
    {
      size := c.size;
      var kind := c.kind % 256;
      var error := false;
      if kind > n {
        error := true;
      }
      if !rows[kind].active {
        error := true;
      }
      if c.size > rows[kind].size {
        error := true;
      }
      if moving {
        error := true;
      }
      if error {
        answer := Ack(address, 0, 1);
        size := 0;
      } else {
        answer := Ack(address, window, 0);
        callback, buffer, data, partner := true, memory[kind], Mapped(0), c.from;
      }
    }

    method HandleAck(c: Command) returns (answer: Command)
      requires c.Ack?
      modifies this
      ensures Reaction(Snapshot(), answer) == P.HandleAck(old(Snapshot()), c)
      ensures source == old(source) && buffer == old(buffer)
      ensures old(data) == Null || old(partner) != c.from || c.result !in {0, 1, 2} ==> answer == Silence && unchanged(this)
      ensures old(data) != Null && old(partner) == c.from && c.result == 0 ==>
        var w := c.window % 256;
        var n := if old(size) >= w then w else old(size) % 256;
        && size == (if old(size) >= w then old(size) - w else 0) && data == Advanced(old(data), n)
        && answer == Data(address, if old(size) >= w then 0 else 1,
                          Bytes(if old(data.Source?) then source[..] else buffer[..], old(data).offset, n))
        && partner == old(partner) && callback == old(callback)
      ensures old(data) != Null && old(partner) == c.from && c.result in {1, 2} ==>
        && answer == Silence && data == Null && partner == 0 && !callback
        && size == if c.result == 2 && old(size) == 0 then -2 else -1
    {
      answer := Silence;
      if data == Null || partner != c.from {
        return;
      }
      match c.result {
        case 0 =>
          var window := c.window % 256;
          var toSend, last := size - window, 0;
          if toSend < 0 {
            window := (window + toSend) % 256;
            toSend, last := 0, 1;
          }
          size := toSend;
          answer := Data(address, last, Bytes(if data.Source? then source[..] else buffer[..], data.offset, window));
          data := Advanced(data, window);
        case 1 =>
          callback, data, size, partner := false, Null, -1, 0;
        case 2 =>
          callback, data, partner := false, Null, 0;
          size := if size != 0 then -1 else -2;
        case _ =>
      }
    }

    /** cmd_functions.read: the first `read` of the bytes arrive where the data pointer points. */
    method Read(bytes: seq<byte>, read: nat)
      requires read <= |bytes| && source != buffer
      modifies `corrupt, source, buffer
      ensures Snapshot() == Written(old(Snapshot()), bytes[..read])
      ensures data != Null ==> var target := if data.Source? then source else buffer;
        && (data.offset + read <= target.Length ==>
              target[..] == old(target[..data.offset]) + bytes[..read] + old(target[data.offset + read..]))
        && (corrupt <==> old(corrupt) || data.offset + read > target.Length)
    {
      if data == Null || data.offset + read > (if data.Source? then source else buffer).Length {
        corrupt := true;
        return;
      }
      Copy(if data.Source? then source else buffer, data.offset, bytes, read);
    }

    static method Copy(target: array<byte>, at: nat, bytes: seq<byte>, n: nat)
      requires n <= |bytes| && at + n <= target.Length
      modifies target
      ensures target[..] == old(target[..at]) + bytes[..n] + old(target[at + n..])
    {
      var i := 0;
      while i < n
        invariant i <= n && target[..at] == old(target[..at]) && target[at + n..] == old(target[at + n..])
        invariant target[at..at + i] == bytes[..i]
      {
        target[at + i] := bytes[i];
        i := i + 1;
      }
    }

    method HandleData(c: Command, read: nat, window: int) returns (answer: Command)
      requires c.Data? && read <= |c.bytes| && source != buffer
      modifies this, source, buffer
      ensures Reaction(Snapshot(), answer) == P.HandleData(old(Snapshot()), c, read, window)
      ensures source == old(source) && buffer == old(buffer)
      ensures old(partner) != c.from ==> answer == Silence && unchanged(this)
      ensures old(partner) == c.from && read < |c.bytes| ==>
        answer == Ack(address, 0, 1) && data == Null && !callback && size == 0 && partner == c.from
      ensures old(partner) == c.from && read == |c.bytes| && c.last == 1 ==>
        && answer == Ack(address, 0, 2) && data == Null && !callback && size == 0 && partner == 0
        && |seen| == |old(seen)| + 1
      ensures old(partner) == c.from && read == |c.bytes| && c.last != 1 ==>
        && answer == Ack(address, window, 0) && data == Advanced(old(data), read)
        && size == old(size) && partner == c.from && callback == old(callback) && seen == old(seen)
      ensures old(partner) == c.from && old(data) != Null ==>
        var target, at := if old(data.Source?) then source else buffer, old(data).offset;
        && (at + read <= target.Length ==>
              target[..] == old(target[..at]) + c.bytes[..read] + old(target[at + read..]))
        && (corrupt <==> old(corrupt) || at + read > target.Length)
    {
      if partner != c.from {
        return Silence;
      }
      Read(c.bytes, read);
      if read != |c.bytes| {
        answer := Ack(address, 0, 1);
        data, callback, size := Null, false, 0;
        return;
      }
      ghost var memory := Memory(Snapshot());
      data := Advanced(data, read);
      if c.last == 1 {
        seen := seen + [if data.Null? then [] else Bytes(memory, 0, data.offset)];
        data, callback, size, partner := Null, false, 0, 0;
        answer := Ack(address, 0, 2);
      } else {
        answer := Ack(address, window, 0);
      }
    }
  }
}
