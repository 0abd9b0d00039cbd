/** Length-prefixed messages over a byte stream that reads and writes in fragments. */
module Framing {

  import opened Bytes

  /** What the kernel will do to one read or write call. */
  datatype Outcome = Interrupted | Failed | Upto(n: nat)

  /** What a call returned: the number of bytes moved, or -1 with errno EINTR or another. */
  datatype Returned = Moved(n: nat) | Eintr | Error

  /** b starts with the first k bytes of `stream` and is as b0 behind them. */
  ghost predicate Filled(b0: seq<Byte>, b: seq<Byte>, stream: seq<Byte>, k: nat) {
    && k <= |b| == |b0| && k <= |stream|
    && (forall j | 0 <= j < k :: b[j] == stream[j])
    && (forall j | k <= j < |b| :: b[j] == b0[j])
  }

  /** b1 is b0 with the first n bytes of `stream` stored from `pos` on. */
  ghost predicate Stored(b0: seq<Byte>, b1: seq<Byte>, pos: nat, stream: seq<Byte>, n: nat) {
    && pos + n <= |b0| == |b1| && n <= |stream|
    && (forall j | 0 <= j < |b0| && !(pos <= j < pos + n) :: b1[j] == b0[j])
    && b1[pos..pos + n] == stream[..n]
  }

  lemma FillMore(b0: seq<Byte>, b1: seq<Byte>, b2: seq<Byte>, stream: seq<Byte>, rest: seq<Byte>, k: nat, n: nat)
    requires Filled(b0, b1, stream, k) && rest == stream[k..] && Stored(b1, b2, k, rest, n)
    ensures Filled(b0, b2, stream, k + n) && rest[n..] == stream[k + n..]
  {
    forall j | 0 <= j < k + n
      ensures b2[j] == stream[j]
    {
      if j >= k {
        assert b2[k..k + n][j - k] == rest[..n][j - k];
      }
    }
  }

  ghost predicate NoFailure(script: seq<Outcome>) {
    forall i | 0 <= i < |script| :: !script[i].Failed?
  }

  /**
    One end of a connection. `stream` is what can still be read before the end of the stream, `sent`
    what was written. `script` fixes the fate of the next calls; after it, calls move all they can.
    */
  class Socket {
    var stream: seq<Byte>
    var sent: seq<Byte>
    var script: seq<Outcome>

    constructor (stream: seq<Byte>, script: seq<Outcome>)
      ensures this.stream == stream && this.script == script && sent == []
    {
      this.stream, this.script, sent := stream, script, [];
    }

    /** How many of at most `most` bytes the next call moves: at least one, when there is one. */
    function Share(most: nat): (n: nat)
      requires script == [] || script[0].Upto?
      reads this
      ensures n <= most && (n == 0 <==> most == 0)
    {
      if script == [] || most <= script[0].n then most
      else if script[0].n == 0 then 1 else script[0].n
    }

    method Read(buffer: array<Byte>, pos: nat, count: nat) returns (r: Returned)
      requires pos + count <= buffer.Length
      modifies this`stream, this`script, buffer
      ensures script == if old(script) == [] then [] else old(script)[1..]
      ensures r.Error? ==> old(script) != [] && old(script)[0].Failed?
      ensures r.Eintr? ==> old(script) != [] && old(script)[0].Interrupted?
      ensures !r.Moved? ==> stream == old(stream) && buffer[..] == old(buffer[..])
      ensures r.Moved? ==>
                && r.n <= count && r.n <= |old(stream)| && (r.n == 0 <==> count == 0 || old(stream) == [])
                && (old(script) == [] ==> r.n == count || r.n == |old(stream)|)
                && stream == old(stream)[r.n..]
                && Stored(old(buffer[..]), buffer[..], pos, old(stream), r.n)
    {
      if script != [] && !script[0].Upto? {
        r := if script[0].Interrupted? then Eintr else Error;
        script := script[1..];
        return;
      }
      var n := Share(if count < |stream| then count else |stream|);
      for i := 0 to n
        invariant stream == old(stream) && script == old(script) && n <= |stream|
        invariant Stored(old(buffer[..]), buffer[..], pos, stream, i)
      {
        buffer[pos + i] := stream[i];
      }
      stream := stream[n..];
      if script != [] { script := script[1..]; }
      r := Moved(n);
    }

    method Write(buffer: array<Byte>, pos: nat, count: nat) returns (r: Returned)
      requires pos + count <= buffer.Length
      modifies this`sent, this`script
      ensures script == if old(script) == [] then [] else old(script)[1..]
      ensures r.Error? ==> old(script) != [] && old(script)[0].Failed?
      ensures r.Eintr? ==> old(script) != [] && old(script)[0].Interrupted?
      ensures !r.Moved? ==> sent == old(sent)
      ensures r.Moved? ==>
                && r.n <= count && (r.n == 0 <==> count == 0) && (old(script) == [] ==> r.n == count)
                && sent == old(sent) + buffer[pos..pos + r.n]
    {
      if script != [] && !script[0].Upto? {
        r := if script[0].Interrupted? then Eintr else Error;
        script := script[1..];
        return;
      }
      var n := Share(count);
      sent := sent + buffer[pos..pos + n];
      if script != [] { script := script[1..]; }
      r := Moved(n);
    }

    /** One turn of a reading loop that has filled the first k cells of the buffer from stream `all`. */
    method ReadMore(buffer: array<Byte>, k: nat, left: nat, ghost b0: seq<Byte>, ghost all: seq<Byte>) returns (r: Returned)
      requires k + left <= buffer.Length && k <= |all| && stream == all[k..]
      requires Filled(b0, buffer[..], all, k)
      modifies this`stream, this`script, buffer
      ensures script == if old(script) == [] then [] else old(script)[1..]
      ensures NoFailure(old(script)) ==> NoFailure(script) && !r.Error?
      ensures !r.Moved? ==> old(script) != []
      ensures var n := if r.Moved? then r.n else 0;
              n <= left && k + n <= |all| && stream == all[k + n..] && Filled(b0, buffer[..], all, k + n)
      ensures r.Moved? ==> (r.n == 0 <==> left == 0 || k == |all|)
      ensures r.Moved? && old(script) == [] ==> r.n == left || k + r.n == |all|
    {
      ghost var b, rest := buffer[..], stream;
      r := Read(buffer, k, left);
      if r.Moved? { FillMore(b0, b, buffer[..], all, rest, k, r.n); }
    }

    /** Reads `count` bytes, or as many as there are; -1 only when a read fails, after `moved` bytes. */
    method ReadAll(buffer: array<Byte>, count: nat) returns (total: int, ghost moved: nat)
      requires count <= buffer.Length
      modifies this`stream, this`script, buffer
      ensures NoFailure(old(script)) ==> total != -1 && NoFailure(script)
      ensures total == -1 || total == moved == if count < |old(stream)| then count else |old(stream)|
      ensures moved <= count && moved <= |old(stream)| && stream == old(stream)[moved..]
      ensures Filled(old(buffer[..]), buffer[..], old(stream), moved)
    {
      var left: nat := count;
      total, moved := 0, 0;
      ghost var b0, all := buffer[..], stream;
      while true
        invariant total == moved && moved + left == count
        invariant left > 0 || count == 0
        invariant moved <= |all| && stream == all[moved..]
        invariant Filled(b0, buffer[..], all, moved)
        invariant NoFailure(old(script)) ==> NoFailure(script)
        decreases |script| + left
      {
        var curr := ReadMore(buffer, total, left, b0, all);
        if curr.Moved? && curr.n == 0 {
          break;
        } else if curr.Eintr? {
          continue;
        } else if curr.Error? {
          total := -1;
          return;
        }
        total, moved := total + curr.n, moved + curr.n;
        left := left - curr.n;
        if left <= 0 {
          break;
        }
      }
    }

    /** Writes `count` bytes; -1 only when a write fails, after `moved` bytes. */
    method WriteAll(buffer: array<Byte>, count: nat) returns (total: int, ghost moved: nat)
      requires count <= buffer.Length
      modifies this`sent, this`script
      ensures NoFailure(old(script)) ==> total != -1 && NoFailure(script)
      ensures total == -1 || total == moved == count
      ensures moved <= count && sent == old(sent) + buffer[..moved]
    {
      var left: nat := count;
      total, moved := 0, 0;
      while true
        invariant total == moved && moved + left == count
        invariant left > 0 || count == 0
        invariant sent == old(sent) + buffer[..moved]
        invariant NoFailure(old(script)) ==> NoFailure(script)
        decreases |script| + left + 1
      {
        var curr := Write(buffer, total, left);
        if curr.Moved? && curr.n == 0 {
          break;
        } else if curr.Eintr? {
          continue;
        } else if curr.Error? {
          total := -1;
          return;
        }
        assert buffer[..moved] + buffer[moved..moved + curr.n] == buffer[..moved + curr.n];
        total, moved := total + curr.n, moved + curr.n;
        left := left - curr.n;
        if left <= 0 {
          break;
        }
      }
    }
  }

  // ---- frames ----

  const MESSAGE_SIZE_DIGITS := 4

  /** `htonl`, as the four bytes it leaves in memory: most significant first. */
  function NetworkOrder(n: nat): (s: seq<Byte>)
    ensures |s| == 4
  {
    [n / 0x100_0000 % 256, n / 0x1_0000 % 256, n / 256 % 256, n % 256]
  }

  /** `ntohl`. */
  function HostOrder(s: seq<Byte>): nat
    requires |s| == 4
  {
    (s[0] as int) * 0x100_0000 + (s[1] as int) * 0x1_0000 + (s[2] as int) * 256 + (s[3] as int)
  }

  /** A size comes back as it was, truncated to 32 bits. */
  lemma OrderRoundTrip(n: nat)
    ensures HostOrder(NetworkOrder(n)) == n % WORD
  {
    var q := n / 256;
    var r := q / 256;
    var t := r / 256;
    assert n == 256 * q + n % 256 && q == 256 * r + q % 256 && r == 256 * t + r % 256;
    assert n / 0x1_0000 == r && n / 0x100_0000 == t;
    assert t == 256 * (t / 256) + t % 256;
    assert n == WORD * (t / 256) + HostOrder(NetworkOrder(n));
  }

  /** The four bytes of a size count for what they do on the wire: the first one most. */
  lemma BigEndian(n: nat)
    ensures var b := NetworkOrder(n);
            (b[0] as int) * 0x100_0000 + (b[1] as int) * 0x1_0000 + (b[2] as int) * 256 + (b[3] as int) == n % WORD
  {
    OrderRoundTrip(n);
  }

  predicate Sendable(m: seq<Byte>) {
    0 < |m| < WORD
  }

  function Frame(m: seq<Byte>): seq<Byte> {
    NetworkOrder(|m|) + m
  }

  function Frames(ms: seq<seq<Byte>>): seq<Byte> {
    if ms == [] then [] else Frame(ms[0]) + Frames(ms[1..])
  }

  lemma {:induction false} FramesAppend(ms: seq<seq<Byte>>, m: seq<Byte>)
    ensures Frames(ms + [m]) == Frames(ms) + Frame(m)
    decreases |ms|
  {
    if ms == [] {
      assert ms + [m] == [m];
    } else {
      assert (ms + [m])[1..] == ms[1..] + [m];
      FramesAppend(ms[1..], m);
    }
  }

  /** The first frame of a byte stream and what follows are determined by the stream. */
  lemma FrameSplits(m: seq<Byte>, rest: seq<Byte>)
    requires Sendable(m)
    ensures var s := Frame(m) + rest;
            && |s| >= 4 && HostOrder(s[..4]) == |m| && |s| >= 4 + |m|
            && s[4..4 + |m|] == m && s[4 + |m|..] == rest
  {
    var s := Frame(m) + rest;
    assert s[..4] == NetworkOrder(|m|);
    OrderRoundTrip(|m|);
  }

  /** No two sequences of messages look the same on the wire. */
  lemma {:induction false} FramesInjective(ms: seq<seq<Byte>>, ns: seq<seq<Byte>>)
    requires (forall m | m in ms :: Sendable(m)) && (forall n | n in ns :: Sendable(n))
    requires Frames(ms) == Frames(ns)
    ensures ms == ns
    decreases |ms|
  {
    assert ns != [] ==> |Frames(ns)| >= 4;
    if ms != [] {
      assert |Frames(ms)| >= 4;
      assert ms[0] in ms && ns[0] in ns;
      FrameSplits(ms[0], Frames(ms[1..]));
      FrameSplits(ns[0], Frames(ns[1..]));
      FramesInjective(ms[1..], ns[1..]);
      assert ms == [ms[0]] + ms[1..] && ns == [ns[0]] + ns[1..];
    }
  }

  method WriteMessageSize(size: nat, socket: Socket) returns (r: int)
    modifies socket`sent, socket`script
    ensures NoFailure(old(socket.script)) ==> r == 4 && NoFailure(socket.script)
    ensures r == -1 || (r == 4 && socket.sent == old(socket.sent) + NetworkOrder(size % WORD))
    ensures r == 4 ==>
              && |socket.sent| == |old(socket.sent)| + 4
              && var b := socket.sent[|old(socket.sent)|..];
                 (b[0] as int) * 0x100_0000 + (b[1] as int) * 0x1_0000 + (b[2] as int) * 256 + (b[3] as int) == size % WORD
  {
    BigEndian(size % WORD);
    var writeSize := NetworkOrder(size % WORD);
    var buffer := new Byte[4](i requires 0 <= i < 4 => writeSize[i]);
    ghost var moved;
    r, moved := socket.WriteAll(buffer, MESSAGE_SIZE_DIGITS);
    assert buffer[..4] == writeSize;
  }

  /** The next size on the stream; 0 at its end, -1 when a read fails. Fewer than four bytes leave it arbitrary. */
  method GetMessageSize(socket: Socket) returns (r: int)
    modifies socket`stream, socket`script
    ensures NoFailure(old(socket.script)) ==> r != -1 && NoFailure(socket.script)
    ensures r != -1 ==> 0 <= r < WORD
    ensures r != -1 && |old(socket.stream)| >= 4 ==>
              && r == HostOrder(old(socket.stream)[..4]) && socket.stream == old(socket.stream)[4..]
              && var b := old(socket.stream)[..4];
                 r == (b[0] as int) * 0x100_0000 + (b[1] as int) * 0x1_0000 + (b[2] as int) * 256 + (b[3] as int)
    ensures r != -1 && old(socket.stream) == [] ==> r == 0 && socket.stream == []
  {
    var size := new Byte[4];
    ghost var moved;
    r, moved := socket.ReadAll(size, MESSAGE_SIZE_DIGITS);
    if r == 0 || r == -1 { return; }
    if r == 4 { assert size[..] == old(socket.stream)[..4]; }
    r := HostOrder(size[..]);
  }

  lemma SizeFits(n: nat)
    requires n < WORD
    ensures n % WORD == n
  {
  }

  method SendMessage(m: array<Byte>, socket: Socket) returns (r: int)
    requires Sendable(m[..])
    modifies socket`sent, socket`script
    ensures NoFailure(old(socket.script)) ==> r > 0 && NoFailure(socket.script)
    ensures r > 0 ==> socket.sent == old(socket.sent) + Frame(m[..])
  {
    hide NetworkOrder, NoFailure;
    SizeFits(m.Length);
    ghost var size := NetworkOrder(m.Length);
    r := WriteMessageSize(m.Length, socket);
    if r > 0 {
      ghost var moved;
      r, moved := socket.WriteAll(m, m.Length);
      assert m[..m.Length] == m[..];
      assert old(socket.sent) + size + m[..] == old(socket.sent) + (size + m[..]);
    }
  }

  /** The loop of a receiver: sizes and messages in turn, until the end of the stream or a failure. */
  method ReceiveMessages(socket: Socket, ghost ms: seq<seq<Byte>>) returns (received: seq<seq<Byte>>)
    requires NoFailure(socket.script) && socket.stream == Frames(ms) && forall m | m in ms :: Sendable(m)
    modifies socket`stream, socket`script
    ensures received == ms && socket.stream == []
  {
    received := [];
    var retval: int := 1;
    ghost var k := 0;
    while retval > 0
      invariant NoFailure(socket.script) && k <= |ms| && received == ms[..k]
      invariant socket.stream == Frames(ms[k..])
      invariant retval <= 0 ==> k == |ms|
      decreases |ms| - k, retval > 0
    {
      ghost var before := socket.stream;
      if k < |ms| {
        NextFrame(ms, k);
      }
      retval := GetMessageSize(socket);
      if retval > 0 {
        var buffer := new Byte[retval];
        ghost var moved;
        retval, moved := socket.ReadAll(buffer, retval);
        if retval > 0 {
          assert buffer[..retval] == ms[k];
          received := received + [buffer[..retval]];
          k := k + 1;
        }
      }
    }
  }

  lemma NextFrame(ms: seq<seq<Byte>>, k: nat)
    requires k < |ms| && forall m | m in ms :: Sendable(m)
    ensures var s := Frames(ms[k..]);
            && Sendable(ms[k]) && |s| >= 4 + |ms[k]| && HostOrder(s[..4]) == |ms[k]|
            && s[4..][..|ms[k]|] == ms[k] && s[4..][|ms[k]|..] == Frames(ms[k + 1..])
  {
    assert ms[k] in ms && ms[k..][0] == ms[k] && ms[k..][1..] == ms[k + 1..];
    FrameSplits(ms[k], Frames(ms[k + 1..]));
    var s := Frame(ms[k]) + Frames(ms[k + 1..]);
    assert s[4..][..|ms[k]|] == s[4..4 + |ms[k]|];
    assert s[4..][|ms[k]|..] == s[4 + |ms[k]|..];
  }

  /**
    Messages sent one after the other arrive unchanged and in order, whatever fragments the two
    scripts cut them into and however often they interrupt.
    */
  method Transfer(ms: seq<seq<Byte>>, writing: seq<Outcome>, reading: seq<Outcome>) returns (received: seq<seq<Byte>>)
    requires NoFailure(writing) && NoFailure(reading) && forall m | m in ms :: Sendable(m)
    ensures received == ms
  {
    var sender := new Socket([], writing);
    for i := 0 to |ms|
      invariant NoFailure(sender.script) && sender.sent == Frames(ms[..i])
    {
      assert ms[i] in ms;
      var m := new Byte[|ms[i]|](j requires 0 <= j < |ms[i]| => ms[i][j]);
      assert m[..] == ms[i];
      var r := SendMessage(m, sender);
      FramesAppend(ms[..i], ms[i]);
      assert ms[..i + 1] == ms[..i] + [ms[i]];
    }
    assert ms[..|ms|] == ms;
    var receiver := new Socket(sender.sent, reading);
    received := ReceiveMessages(receiver, ms);
  }
}
