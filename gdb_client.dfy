/** src/Debugger/gdb/GDBClient.mjs: one connected GDB client. The socket is the
    sequence of strings written to it, in order. */
module GdbClient {

  import opened HexFormat
  import opened GdbUtils

  /** A reply packet: '$', the payload, '#' and the payload's checksum. */
  function Frame(data: string): (p: string)
    ensures |p| == |data| + 4
    ensures p[0] == '$' && p[|data| + 1] == '#'
    ensures p[1..|data| + 1] == data && p[|data| + 2..] == Hash(data)
  {
    "$" + data + "#" + Hash(data)
  }

  /** `ok()` sends "$OK#9a". */
  lemma FrameOfOk()
    ensures Frame("OK") == "$OK#9a"
  {
    HashOfOk();
  }

  /** `reply()` with no payload sends "$#00". */
  lemma FrameOfNothing()
    ensures Frame("") == "$#00"
  {
    HashOfEmpty();
  }

  class Client {
    /** Whether received packets are acknowledged with '+'. */
    var useAcks: bool
    /** Everything written to the socket, oldest first. */
    var sent: seq<string>

    /** A new client acknowledges packets and has sent nothing. */
    constructor ()
      ensures useAcks && sent == []
    {
      useAcks := true;
      sent := [];
    }

    /** `send(packet)`: one more string on the socket, after all earlier ones. */
    method Send(packet: string)
      modifies this
      ensures sent == old(sent) + [packet] && useAcks == old(useAcks)
    {
      sent := sent + [packet];
    }

    /** `ack()`: '+' while acknowledgements are on, nothing otherwise. */
    method Ack()
      modifies this
      ensures sent == old(sent) + (if useAcks then ["+"] else []) && useAcks == old(useAcks)
    {
      if useAcks {
        Send("+");
      }
    }

    /** `reply(data)`: the framed payload. */
    method Reply(data: string)
      modifies this
      ensures sent == old(sent) + [Frame(data)] && useAcks == old(useAcks)
    {
      Send("$" + data + "#" + Hash(data));
    }

    /** `ok()`: the reply "OK". */
    method Ok()
      modifies this
      ensures sent == old(sent) + ["$OK#9a"] && useAcks == old(useAcks)
    {
      FrameOfOk();
      Reply("OK");
    }
  }
}
