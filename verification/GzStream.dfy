/**
  The buffered stream over a compressed file of gem5/ext/gzstream (gzstream.cc, gzstream.hh).
  A compressed file is the sequence of bytes it holds uncompressed.
 */
module GzStream {
  import opened Common

  /** The result of a stream operation: EOF, or a byte as an unsigned number; or the operation wrote
      behind the buffer, and C++ says no more. */
  datatype Result = EOF | Got(byte: Byte) | Overrun

  /** The result of a flush: what flush_buffer or sync returns, EOF or -1, or it was asked of a stream with
      no open file, where gzwrite is called on a handle that is none. */
  datatype Flushed = Done(n: nat) | Failed | NoHandle

  const BUFFER_SIZE := 47 + 256

  /** The array after num bytes have been put into it from the file at `pos` */
  predicate ReadInto(b: seq<Byte>, r: seq<Byte>, at: nat, num: nat, data: seq<Byte>, pos: nat)
    requires pos + num <= |data| && at + num <= |b|
  {
    |r| == |b| && forall i :: 0 <= i < |b| ==> r[i] == if at <= i < at + num then data[pos + i - at] else b[i]
  }

  /** The file handle: gzwrite appends to `data`, gzread takes from it at `pos`. */
  class GzFile {
    var data: seq<Byte>
    var pos: nat
    // whether a read has failed, and how many writes were short
    ghost var failed: bool
    ghost var shorts: nat

    constructor (data: seq<Byte>)
      ensures this.data == data && pos == 0 && !failed && shorts == 0
    {
      this.data, pos, failed, shorts := data, 0, false, 0;
    }

    /** gzwrite: takes some of the bytes, and says how many; 0 on an error. */
    method Write(bytes: seq<Byte>) returns (n: nat)
      modifies this`data, this`shorts
      ensures n <= |bytes| && data == old(data) + bytes[..n]
      ensures shorts == old(shorts) + if n == |bytes| then 0 else 1
    {
      n :| 0 <= n <= |bytes|;
      data := data + bytes[..n];
      if n != |bytes| {
        shorts := shorts + 1;
      }
    }

    /** gzread: as many bytes as asked for, or as there are; negative on an error. */
    method Read(a: array<Byte>, at: nat, len: nat) returns (num: int)
      requires at + len <= a.Length && len > 0 && pos <= |data|
      modifies this`pos, this`failed, a
      ensures failed == (old(failed) || num < 0)
      ensures num < 0 ==> pos == old(pos)
      ensures num >= 0 ==> num == Min(len, |data| - old(pos)) && pos == old(pos) + num
      ensures ReadInto(old(a[..]), a[..], at, if num < 0 then 0 else num, data, old(pos))
    {
      num := *;
      var left := |data| - pos;
      if num >= 0 {
        num := if left < len then left else len;
        forall i | 0 <= i < num {
          a[at + i] := data[pos + i];
        }
        pos := pos + num;
      } else {
        failed := true;
      }
    }
  }

  datatype Mode = Mode(input: bool, output: bool, ate: bool, app: bool)

  function Min(a: int, b: int): (m: int) {
    if a < b then a else b
  }

  /** Byte i of the buffer after memcpy has put the n bytes before `gptr` in front of index 4. */
  function Moved(b: seq<Byte>, gptr: nat, n: nat, i: nat): (c: Byte)
    requires n <= 4 <= gptr <= |b| && i < |b|
  {
    if 4 - n <= i < 4 then b[gptr - 4 + i] else b[i]
  }

  predicate MovedTo(b: seq<Byte>, r: seq<Byte>, gptr: nat, n: nat)
    requires n <= 4 <= gptr <= |b|
  {
    |r| == |b| && forall i :: 0 <= i < |b| ==> r[i] == Moved(b, gptr, n, i)
  }

  /** From one offset to another the buffer holds the bytes of the file before `pos`. */
  predicate RightIn(b: seq<Byte>, from: nat, end: nat, data: seq<Byte>, pos: nat) {
    && from <= end <= |b| && end - from <= pos <= |data|
    && forall i {:trigger b[i]} :: from <= i < end ==> b[i] == data[pos - (end - i)]
  }

  /** What the move leaves of them: those from index 4 on. */
  lemma {:induction false} RightAfterMove(b: seq<Byte>, m: seq<Byte>, r: seq<Byte>, gptr: nat, n: nat, kept: nat,
                                          data: seq<Byte>, pos: nat)
    requires n <= 4 <= gptr <= |b| && RightIn(b, kept, gptr, data, pos) && MovedTo(b, m, gptr, n)
    requires 4 <= |b| && ReadInto(m, r, 4, 0, data, pos)
    ensures MovedTo(b, r, gptr, n) && RightIn(r, if kept < 4 then 4 else kept, gptr, data, pos)
  {
    var k := if kept < 4 then 4 else kept;
    forall i | k <= i < gptr
      ensures r[i] == data[pos - (gptr - i)]
    {
      assert r[i] == b[i];
    }
  }

  /** With new bytes behind them, the moved ones continue the file. */
  lemma {:induction false} RightAfterRefill(b: seq<Byte>, m: seq<Byte>, r: seq<Byte>, gptr: nat, n: nat, kept: nat,
                                            data: seq<Byte>, pos: nat, num: nat)
    requires n <= 4 <= gptr <= |b| && RightIn(b, kept, gptr, data, pos) && Min(4, gptr - kept) <= n
    requires pos + num <= |data| && 4 + num <= |b| && MovedTo(b, m, gptr, n) && ReadInto(m, r, 4, num, data, pos)
    ensures RightIn(r, 4 - Min(4, gptr - kept), 4 + num, data, pos + num)
  {
    forall i | 4 - Min(4, gptr - kept) <= i < 4 + num
      ensures r[i] == data[pos + num - (4 + num - i)]
    {
      if i < 4 {
        assert r[i] == b[gptr - 4 + i];
      }
    }
  }

  /** The bytes moved are the last n before `gptr`, and they can be put back from where they were
      exactly when the move does not overwrite them: when a refill brought at least n bytes. */
  lemma {:induction false} MoveKeepsIff(gptr: nat, n: nat)
    requires n <= 4 <= gptr <= BUFFER_SIZE
    ensures (forall b: seq<Byte>, i: nat ::
               |b| == BUFFER_SIZE && gptr - n <= i < gptr ==> Moved(b, gptr, n, i) == b[i])
       <==> n == 0 || gptr == 4 || gptr >= 4 + n
  {
    if n > 0 && 4 < gptr < 4 + n {
      var b := seq(BUFFER_SIZE, j => if j == gptr - 1 then 1 as Byte else 0);
      assert Moved(b, gptr, n, 3) == 1 && b[3] == 0;
    }
  }

  /** An output program. */
  datatype Op = Put(c: Byte) | Sync

  /** How a run of one ends: the last two are what C++ says nothing of. */
  datatype Ended = Completed | Stopped | Overran | Unhandled

  function Puts(ops: seq<Op>): (s: seq<Byte>) {
    if ops == [] then []
    else Puts(ops[..|ops| - 1]) + (if ops[|ops| - 1].Put? then [ops[|ops| - 1].c] else [])
  }

  function Bytes(c: Option<Byte>): (s: seq<Byte>) {
    if c.Some? then [c.value] else []
  }

  class GzStreamBuf {
    var file: GzFile
    const buffer: array<Byte>
    var isOpen: bool
    var mode: Mode
    // Offsets into the buffer; the put area is 0 .. BUFFER_SIZE - 1.
    var pptr: nat
    var eback: nat
    var gptr: nat
    var egptr: nat
    // The bytes from here to egptr are the ones just read from the file.
    ghost var kept: nat

    ghost predicate Valid()
      reads this
    {
      && buffer.Length == BUFFER_SIZE && pptr <= BUFFER_SIZE
      && eback <= gptr <= egptr <= BUFFER_SIZE && eback <= 4 <= egptr
    }

    ghost function Buffered(): (s: seq<Byte>)
      requires Valid()
      reads this, buffer
    {
      buffer[..pptr]
    }

    /** All bytes accepted so far: those in the file, then those in the buffer. */
    ghost function Accepted(): (s: seq<Byte>)
      requires Valid()
      reads this, buffer, file
    {
      file.data + Buffered()
    }

    /** From one offset to another the buffer holds the bytes of the file before its read position. */
    ghost predicate Right(from: nat, end: nat)
      requires Valid()
      reads this, buffer, file
    {
      RightIn(buffer[..], from, end, file.data, file.pos)
    }

    /** From `kept` on the get area holds the bytes of the file before its read position. */
    ghost predicate Reading()
      requires Valid()
      reads this, buffer, file
    {
      && isOpen && mode.input && eback <= kept <= gptr
      && Right(kept, egptr)
    }

    /** How many bytes of the file have been delivered. */
    ghost function Position(): (p: int)
      reads this, file
    {
      file.pos - (egptr - gptr)
    }

    constructor (file: GzFile)
      ensures Valid() && fresh(buffer) && this.file == file && !isOpen
      ensures pptr == 0 && gptr == egptr
    {
      this.file := file;
      buffer := new Byte[BUFFER_SIZE](_ => 0);
      isOpen, mode := false, Mode(false, false, false, false);
      pptr, eback, gptr, egptr, kept := 0, 4, 4, 4, 4;
    }

    /** open: the file given is what gzopen gives, none if it fails. */
    method Open(opening: GzFile?, openMode: Mode) returns (ok: bool)
      requires Valid() && (opening != null ==> opening.pos == 0)
      modifies this
      ensures Valid() && (pptr, eback, gptr, egptr) == old((pptr, eback, gptr, egptr))
      ensures ok <==> !old(isOpen) && opening != null && !openMode.ate && !openMode.app
                      && !(openMode.input && openMode.output)
      ensures isOpen == (old(isOpen) || ok)
      ensures ok ==> file == opening && mode == openMode
      ensures !ok ==> file == old(file)
      // bytes left in the buffer from before belong to neither file
      ensures ok && mode.input ==> (Reading() <==> gptr == egptr)
      ensures ok && mode.output && file.data == [] ==> (Accepted() == [] <==> pptr == 0)
    {
      if isOpen {
        return false;
      }
      mode := openMode;
      if mode.ate || mode.app || (mode.input && mode.output) {
        return false;
      }
      if opening == null {
        return false;
      }
      file, isOpen, kept := opening, true, egptr;
      ok := true;
    }

    // ----- Output

    /** flush_buffer */
    method FlushBuffer() returns (r: Flushed)
      requires Valid()
      modifies this`pptr, file`data, file`shorts
      ensures Valid() && (r == NoHandle <==> !isOpen)
      ensures r.Done? ==> r.n == old(pptr) && pptr == 0 && file.data == old(Accepted())
      ensures !r.Done? ==> pptr == old(pptr) && old(file.data) <= file.data <= old(Accepted())
      ensures r == Failed ==> file.data < old(Accepted())
      ensures r == NoHandle ==> file.data == old(file.data)
      ensures file.shorts == old(file.shorts) + if r == Failed then 1 else 0
      // a write that fails half way repeats bytes; one that fails outright does not
      ensures Accepted() == old(Accepted()) <==> r.Done? || file.data == old(file.data)
    {
      if !isOpen {
        return NoHandle;
      }
      var w := pptr;
      var n := file.Write(buffer[..w]);
      if n != w {
        assert file.data < old(Accepted());
        assert |Accepted()| == |file.data| + w && |old(Accepted())| == |old(file.data)| + w;
        return Failed;
      }
      pptr := 0;
      assert file.data == old(Accepted());
      r := Done(w);
    }

    /** overflow, of a byte or of EOF (None): the put pointer is inside the buffer afterwards exactly when
        the flush succeeded or there was room left behind the byte. */
    method Overflow(c: Option<Byte>) returns (r: Result)
      requires Valid()
      modifies this`pptr, buffer, file`data, file`shorts
      ensures Valid()
      ensures !(isOpen && mode.output) ==> r == EOF && Unchanged(old(pptr), old(file.data), old(buffer[..]))
      ensures r == Overrun <==> isOpen && mode.output && c.Some? && old(pptr) == BUFFER_SIZE
      ensures r == Overrun ==> Unchanged(old(pptr), old(file.data), old(buffer[..]))
      ensures r.Got? ==> c == Some(r.byte) && pptr == 0 && file.data == old(Accepted()) + [r.byte]
      ensures isOpen && mode.output && r == EOF ==>
        || (c == None && pptr == 0 && file.data == old(Accepted()))
        || (pptr == old(pptr) + |Bytes(c)| && file.data < old(Accepted()) + Bytes(c))
      ensures isOpen && mode.output && r != Overrun ==> (pptr < BUFFER_SIZE <==>
        file.data == old(Accepted()) + Bytes(c) || old(pptr) + |Bytes(c)| < BUFFER_SIZE)
      // it fails exactly when its one write is short
      ensures file.shorts == old(file.shorts) + if isOpen && mode.output && r != Overrun && pptr != 0 then 1 else 0
    {
      if !mode.output || !isOpen {
        return EOF;
      }
      if c.Some? {
        if pptr == BUFFER_SIZE {
          return Overrun;
        }
        buffer[pptr] := c.value;
        pptr := pptr + 1;
        assert buffer[..pptr] == old(buffer[..pptr]) + [c.value];
      }
      assert Accepted() == old(Accepted()) + Bytes(c);
      var flushed := FlushBuffer();
      if !flushed.Done? {
        return EOF;
      }
      r := if c.Some? then Got(c.value) else EOF;
    }

    ghost predicate Unchanged(pptr0: nat, data0: seq<Byte>, buffer0: seq<Byte>)
      reads this, file, buffer
    {
      pptr == pptr0 && file.data == data0 && buffer[..] == buffer0
    }

    /** sputc of the stream buffer interface: into the put area if it has room */
    method Sputc(c: Byte) returns (r: Result)
      requires Valid()
      modifies this`pptr, buffer, file`data, file`shorts
      ensures Valid()
      ensures r.Got? ==> r.byte == c && pptr < BUFFER_SIZE && Accepted() == old(Accepted()) + [c]
      ensures r == Overrun <==> isOpen && mode.output && old(pptr) == BUFFER_SIZE
      ensures old(pptr) < BUFFER_SIZE - 1 ==> r.Got? && pptr == old(pptr) + 1
      // the last place of the buffer needs the flush behind it
      ensures old(pptr) == BUFFER_SIZE - 1 ==>
        (r.Got? <==> isOpen && mode.output && file.shorts == old(file.shorts)) && (r.Got? ==> pptr == 0)
      ensures file.shorts == old(file.shorts) || (r == EOF && file.shorts > old(file.shorts))
      // a flush that fails at the end of the put area leaves the put pointer behind the buffer
      ensures old(pptr) >= BUFFER_SIZE - 1 && isOpen && mode.output && r == EOF ==> pptr == BUFFER_SIZE
    {
      if pptr < BUFFER_SIZE - 1 {
        buffer[pptr] := c;
        pptr := pptr + 1;
        assert buffer[..pptr] == old(buffer[..pptr]) + [c];
        r := Got(c);
      } else {
        r := Overflow(Some(c));
      }
    }

    /** sync */
    method Flush() returns (r: Flushed)
      requires Valid()
      modifies this`pptr, file`data, file`shorts
      ensures Valid() && (r == NoHandle <==> !isOpen && old(pptr) > 0)
      ensures r.Done? ==> r.n == 0 && pptr == 0 && file.data == old(Accepted())
      ensures r == NoHandle ==> pptr == old(pptr) && file.data == old(file.data)
      ensures r == Failed ==> pptr == old(pptr) > 0 && old(file.data) <= file.data < old(Accepted())
      ensures file.shorts == old(file.shorts) + if r == Failed then 1 else 0
    {
      r := Done(0);
      if pptr > 0 {
        var flushed := FlushBuffer();
        if !flushed.Done? {
          return flushed;
        }
      }
    }

    /** close: the flag is gzclose's; what sync says is not looked at. */
    method Close() returns (ok: bool)
      requires Valid()
      modifies this`pptr, this`isOpen, file`data, file`shorts
      ensures Valid() && !isOpen && (ok ==> old(isOpen))
      ensures !old(isOpen) ==> pptr == old(pptr) && (file.data, file.shorts) == old((file.data, file.shorts))
      ensures old(isOpen) && pptr == 0 ==> file.data == old(Accepted())
      ensures old(isOpen) && pptr != 0 ==> file.data < old(Accepted())
      ensures old(isOpen) ==> file.shorts == old(file.shorts) + if pptr == 0 then 0 else 1
    {
      if isOpen {
        var _ := Flush();
        isOpen := false;
        ok := *;
      } else {
        ok := false;
      }
    }

    /** Any program of puts and syncs, up to the first failure: what the file and the buffer hold is
        what was put, from a put pointer inside the buffer nothing is written behind it, and an open
        output stream gets to the end exactly when no write is short. */
    method WriteAll(ops: seq<Op>) returns (r: Ended)
      requires Valid()
      modifies this`pptr, buffer, file`data, file`shorts
      ensures Valid()
      ensures r == Completed ==> Accepted() == old(Accepted()) + Puts(ops)
      ensures old(pptr) < BUFFER_SIZE ==> r != Overran && (r == Completed ==> pptr < BUFFER_SIZE)
      ensures isOpen ==> r != Unhandled
      ensures isOpen && mode.output && old(pptr) < BUFFER_SIZE ==>
        (r == Completed <==> file.shorts == old(file.shorts))
      ensures file.shorts >= old(file.shorts)
    {
      for i := 0 to |ops|
        invariant Valid() && (old(pptr) < BUFFER_SIZE ==> pptr < BUFFER_SIZE)
        invariant Accepted() == old(Accepted()) + Puts(ops[..i]) && file.shorts == old(file.shorts)
      {
        assert ops[..i + 1][..i] == ops[..i];
        match ops[i] {
          case Put(c) =>
            var put := Sputc(c);
            if !put.Got? {
              return if put == Overrun then Overran else Stopped;
            }
          case Sync =>
            var flushed := Flush();
            if !flushed.Done? {
              return if flushed == NoHandle then Unhandled else Stopped;
            }
        }
      }
      assert ops[..|ops|] == ops;
      r := Completed;
    }

    // ----- Input

    /** underflow */
    method Underflow() returns (r: Result)
      requires Valid() && (isOpen && mode.input ==> Reading())
      modifies this`eback, this`gptr, this`egptr, this`kept, buffer, file`pos, file`failed
      ensures Valid() && (isOpen && mode.input ==> Reading() && Position() == old(Position()))
      // a byte already there, or no file to read from
      ensures old(gptr) < old(egptr) || !isOpen || !mode.input ==>
        && (eback, gptr, egptr, kept) == old((eback, gptr, egptr, kept))
        && file.pos == old(file.pos) && buffer[..] == old(buffer[..])
        && r == (if gptr < egptr then Got(buffer[gptr]) else EOF)
      ensures r != Overrun && (r != EOF ==> gptr < egptr && r == Got(buffer[gptr]))
      // a refill keeps the last bytes, up to four, in front of the new ones
      ensures r != EOF && old(gptr) == old(egptr) ==>
        && gptr == 4 && egptr - gptr == Min(BUFFER_SIZE - 4, |file.data| - old(file.pos))
        && gptr - eback == Min(4, old(gptr - eback)) && gptr - kept == Min(4, old(gptr - kept))
      // a refill that gets nothing leaves the pointers, but has moved the bytes already
      ensures r == EOF && isOpen && mode.input ==>
        && (eback, gptr, egptr) == old((eback, gptr, egptr)) && gptr == egptr
        && file.pos == old(file.pos) && (file.failed || file.pos == |file.data|)
        && HasMoved(old(buffer[..]), Min(4, gptr - eback))
        && kept == (if old(kept) < 4 then 4 else old(kept))
    {
      if gptr < egptr {
        return Got(buffer[gptr]);
      }
      if !mode.input || !isOpen {
        return EOF;
      }
      r := Refill();
    }

    /** The rest of underflow, once the get area is used up */
    method Refill() returns (r: Result)
      requires Valid() && Reading() && gptr == egptr
      modifies this`eback, this`gptr, this`egptr, this`kept, buffer, file`pos, file`failed
      ensures Valid() && Reading() && Position() == old(Position())
      ensures r != Overrun
      ensures r != EOF ==>
        && gptr == 4 < egptr && r == Got(buffer[gptr])
        && egptr - gptr == Min(BUFFER_SIZE - 4, |file.data| - old(file.pos))
        && gptr - eback == Min(4, old(gptr - eback)) && gptr - kept == Min(4, old(gptr - kept))
      ensures r == EOF ==>
        && (eback, gptr, egptr) == old((eback, gptr, egptr))
        && file.pos == old(file.pos) && (file.failed || file.pos == |file.data|)
        && HasMoved(old(buffer[..]), Min(4, gptr - eback))
        && kept == (if old(kept) < 4 then 4 else old(kept))
    {
      var n := if gptr - eback > 4 then 4 else gptr - eback;
      var num := Fetch(n);
      if num <= 0 {
        kept := if kept < 4 then 4 else kept;
        return EOF;
      }
      ResetPointers(n, num);
      r := Got(buffer[gptr]);
    }

    /** The setg of underflow */
    method ResetPointers(n: nat, num: nat)
      requires Valid() && isOpen && mode.input && kept <= gptr && Min(4, gptr - kept) <= n <= 4 && 4 + num <= BUFFER_SIZE
      requires Right(4 - Min(4, gptr - kept), 4 + num)
      modifies this`eback, this`gptr, this`egptr, this`kept
      ensures Valid() && Reading() && (eback, gptr, egptr) == (4 - n, 4, 4 + num)
      ensures gptr - kept == Min(4, old(gptr - kept))
    {
      kept := 4 - Min(4, gptr - kept);
      eback, gptr, egptr := 4 - n, 4, 4 + num;
    }

    /** The memcpy and the gzread, which change the bytes but no pointer */
    method Fetch(n: nat) returns (num: int)
      requires Valid() && Reading() && gptr == egptr && Min(4, gptr - kept) <= n <= 4
      modifies buffer, file`pos, file`failed
      ensures num < 0 ==> file.failed
      ensures num >= 0 ==> num == Min(BUFFER_SIZE - 4, |file.data| - old(file.pos))
      ensures num > 0 ==>
        && file.pos == old(file.pos) + num
        && Right(4 - Min(4, gptr - kept), 4 + num)
      ensures num <= 0 ==>
        && file.pos == old(file.pos) && HasMoved(old(buffer[..]), n)
        && Right(if kept < 4 then 4 else kept, gptr)
    {
      ghost var was, pos := buffer[..], file.pos;
      Move(n);
      ghost var moved := buffer[..];
      num := file.Read(buffer, 4, BUFFER_SIZE - 4);
      if num <= 0 {
        RightAfterMove(was, moved, buffer[..], gptr, n, kept, file.data, pos);
      } else {
        RightAfterRefill(was, moved, buffer[..], gptr, n, kept, file.data, pos, num);
      }
    }

    ghost predicate HasMoved(was: seq<Byte>, n: nat)
      requires Valid() && n <= 4 <= gptr && |was| == BUFFER_SIZE
      reads this, buffer
    {
      MovedTo(was, buffer[..], gptr, n)
    }

    /** The memcpy of underflow */
    method Move(n: nat)
      requires Valid() && n <= 4 <= gptr && n <= gptr
      modifies buffer
      ensures HasMoved(old(buffer[..]), n)
    {
      var tail := buffer[gptr - n..gptr];
      forall i | 0 <= i < n {
        buffer[4 - n + i] := tail[i];
      }
    }

    /** sgetc, sbumpc and sungetc of the stream buffer interface */
    method Sgetc() returns (r: Result)
      requires Valid() && Reading()
      modifies this`eback, this`gptr, this`egptr, this`kept, buffer, file`pos, file`failed
      ensures Valid() && Reading() && Position() == old(Position())
      ensures r != Overrun && (r != EOF ==> gptr < egptr && Position() < |file.data| && r == Got(file.data[Position()]))
      ensures r == EOF && !file.failed ==> Position() == |file.data|
    {
      r := Underflow();
      assert gptr < egptr ==> buffer[gptr] == buffer[..][gptr];
    }

    method Sbumpc() returns (r: Result)
      requires Valid() && Reading()
      modifies this`eback, this`gptr, this`egptr, this`kept, buffer, file`pos, file`failed
      ensures Valid() && Reading()
      ensures r != Overrun
      ensures r != EOF ==> 0 <= old(Position()) < |file.data| && r == Got(file.data[old(Position())])
      ensures r != EOF ==> Position() == old(Position()) + 1 && kept < gptr
      ensures r == EOF ==> Position() == old(Position())
      ensures r == EOF && !file.failed ==> Position() == |file.data|
    {
      r := Sgetc();
      if r != EOF {
        gptr := gptr + 1;
      }
    }

    method Sungetc() returns (r: Result)
      requires Valid() && Reading()
      modifies this`gptr
      ensures Valid()
      ensures if old(gptr == eback) then r == EOF && gptr == old(gptr)
              else gptr == old(gptr) - 1 && r == Got(buffer[gptr])
      ensures old(gptr > kept) ==>
        && Reading() && Position() == old(Position()) - 1
        && 0 <= Position() < |file.data| && r == Got(file.data[Position()])
    {
      if gptr == eback {
        return EOF;
      }
      gptr := gptr - 1;
      assert buffer[gptr] == buffer[..][gptr];
      r := Got(buffer[gptr]);
    }

    /** Reading byte by byte to the end delivers the file, whatever the sizes of the refills. */
    method ReadAll() returns (out: seq<Byte>)
      requires Valid() && Reading()
      modifies this`eback, this`gptr, this`egptr, this`kept, buffer, file`pos, file`failed
      ensures Valid() && Reading() && 0 <= old(Position()) <= Position() <= |file.data|
      ensures out == file.data[old(Position())..Position()]
      ensures !file.failed ==> out == file.data[old(Position())..]
    {
      out := [];
      while true
        invariant Valid() && Reading() && 0 <= old(Position()) <= Position()
        invariant out == file.data[old(Position())..Position()]
        decreases |file.data| - Position()
      {
        var r := Sbumpc();
        if r == EOF {
          break;
        }
        out := out + [r.byte];
      }
    }
  }

  /** Opening a file, a program of puts and syncs, closing */
  method WriteFile(ops: seq<Op>) returns (file: GzFile, ok: bool)
    ensures fresh(file) && (ok <==> file.shorts == 0)
    ensures file.shorts == 0 ==> file.data == Puts(ops)
  {
    file := new GzFile([]);
    var writer := new GzStreamBuf(file);
    ok := writer.Open(file, Mode(false, true, false, false));
    var r := writer.WriteAll(ops);
    var _ := writer.Close();
    ok := r == Completed && writer.pptr == 0;
  }

  method ReadFile(file: GzFile) returns (out: seq<Byte>, ok: bool)
    requires file.pos == 0
    modifies file
    ensures file.data == old(file.data) && (ok || !file.failed ==> out == file.data)
  {
    var reader := new GzStreamBuf(file);
    ok := reader.Open(file, Mode(true, false, false, false));
    out := reader.ReadAll();
    ok := reader.gptr == reader.egptr && file.pos == |file.data|;
  }

  /** What one stream writes, another reads back, unless a write was short or a read failed. */
  method RoundTrip(ops: seq<Op>) returns (out: seq<Byte>, written: GzFile, reopened: GzFile)
    ensures fresh(written) && fresh(reopened) && reopened.data == written.data
    ensures written.shorts == 0 && !reopened.failed ==> out == Puts(ops)
  {
    var ok;
    written, ok := WriteFile(ops);
    reopened := new GzFile(written.data);
    out, ok := ReadFile(reopened);
  }

  // ----- Runs that go wrong

  /** A full put area, a flush that fails, and one more byte. */
  method OverrunsAfterFailure(c: Byte) returns (file: GzFile, first: Result, second: Result)
    ensures file.shorts > 0 <==> first == EOF
    ensures first == EOF ==> second == Overrun
  {
    file := new GzFile([]);
    var writer := new GzStreamBuf(file);
    var ok := writer.Open(file, Mode(false, true, false, false));
    for i := 0 to BUFFER_SIZE - 1
      invariant writer.Valid() && writer.pptr == i && writer.isOpen && writer.mode.output && writer.file == file
      invariant file.shorts == 0
    {
      var r := writer.Sputc(c);
    }
    first := writer.Sputc(c);
    second := writer.Sputc(c);
  }

  /** The get area holds the last six bytes of the file, two of them new, and all have been delivered. */
  ghost predicate AtShortEnd(reader: GzStreamBuf)
    reads reader, reader.buffer, reader.file
  {
    && reader.Valid() && reader.Reading() && reader.eback == reader.kept == 0 && reader.gptr == reader.egptr == 6
    && reader.file.pos == |reader.file.data|
  }

  /** A refill that gets nothing, then three bytes back: the third is the last one of the file again. */
  method PutBackThree(reader: GzStreamBuf) returns (r: Result)
    requires AtShortEnd(reader)
    modifies reader, reader.buffer, reader.file
    ensures reader.file == old(reader.file) && reader.file.data == old(reader.file.data)
    ensures r == Got(reader.file.data[|reader.file.data| - 1])
  {
    ghost var data := reader.file.data;
    assert reader.buffer[..][5] == data[|data| - 1];
    var _ := reader.Underflow();
    assert reader.buffer[3] == data[|data| - 1];
    var _ := reader.Sungetc();
    var _ := reader.Sungetc();
    r := reader.Sungetc();
  }

  /** A full refill and one of two bytes. */
  method ReadToShortEnd(file: GzFile) returns (reader: GzStreamBuf, ok: bool)
    requires file.pos == 0 && |file.data| == BUFFER_SIZE - 2
    modifies file
    ensures file.data == old(file.data) && fresh(reader) && fresh(reader.buffer) && reader.file == file
    ensures ok ==> AtShortEnd(reader)
    ensures ok || file.failed
  {
    reader := new GzStreamBuf(file);
    ok := reader.Open(file, Mode(true, false, false, false));
    var r := reader.Underflow();
    if r == EOF {
      return reader, false;
    }
    reader.gptr := reader.egptr;
    r := reader.Underflow();
    if r == EOF {
      return reader, false;
    }
    reader.gptr := reader.egptr;
  }

  /** A file of 301 bytes, only the last of them not zero: unless a read fails, the third byte put back
      at its end is not the third last. */
  method SpoilsPutback() returns (file: GzFile, r: Result)
    ensures |file.data| == 301 && file.data[298] == 0
    ensures !file.failed ==> r == Got(1)
  {
    file := new GzFile(seq(301, i => if i == 300 then 1 as Byte else 0));
    var reader, ok := ReadToShortEnd(file);
    r := EOF;
    if ok {
      r := PutBackThree(reader);
    }
  }
}
