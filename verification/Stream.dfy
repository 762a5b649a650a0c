/** The connections at the edge of the model: what tokio's `TcpStream` does, as a value and as an object. */
module Streams {
  import opened Bytes

  /** A connection as a value: the bytes still to be read before end of stream, how many more bytes it
      takes before writing fails, and everything written so far. */
  datatype Conn = Conn(inbox: seq<byte>, room: nat, sent: seq<byte>) {
    function Written(bytes: seq<byte>): Conn {
      var w := Take(bytes, room);
      Conn(inbox, room - |w|, sent + w)
    }
  }

  class TcpStream {
    var inbox: seq<byte>
    var room: nat
    var sent: seq<byte>

    constructor (inbox: seq<byte>, room: nat)
      ensures Value() == Conn(inbox, room, [])
    {
      this.inbox, this.room, this.sent := inbox, room, [];
    }

    ghost function Value(): Conn
      reads this
    {
      Conn(inbox, room, sent)
    }

    /** tokio's `read_exact` into buf[lo..hi]. */
    method ReadExact(buf: array<byte>, lo: nat, hi: nat) returns (ok: bool)
      requires lo <= hi <= buf.Length
      modifies this`inbox, buf
      ensures ok == (hi - lo <= |old(inbox)|)
      ensures ok ==> buf[lo..hi] == old(inbox)[..hi - lo] && buf[..lo] == old(buf[..lo])
      ensures inbox == if ok then old(inbox)[hi - lo..] else []
    {
      var n := if hi - lo <= |inbox| then hi - lo else |inbox|;
      forall i | lo <= i < lo + n {
        buf[i] := inbox[i - lo];
      }
      ok := n == hi - lo;
      inbox := inbox[n..];
    }

    /** tokio's `write_all`. */
    method WriteAll(bytes: seq<byte>) returns (ok: bool)
      modifies this`room, this`sent
      ensures ok == (|bytes| <= old(room))
      ensures Value() == old(Value()).Written(bytes)
    {
      var w := Take(bytes, room);
      ok := |bytes| <= room;
      sent, room := sent + w, room - |w|;
    }
  }
}
