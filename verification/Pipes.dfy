/** One direction of a raw byte stream. */
module Pipes {
  import opened Bytes

  class Pipe {
    /** Bytes written and not yet read. */
    var data: Data

    constructor ()
      ensures data == []
    {
      data := [];
    }

    method Write(p: Data)
      modifies this
      ensures data == old(data) + p
    {
      data := data + p;
    }

    /** A raw read: it may hand over fewer bytes than asked for, at least one when it can; `ok` is false at the end. */
    method Read(cap: nat) returns (out: Data, ok: bool)
      modifies this
      ensures ok <==> old(data) != []
      ensures out + data == old(data) && |out| <= cap
      ensures ok && cap > 0 ==> out != []
    {
      if data == [] {
        return [], false;
      }
      var most: nat := Min(cap, |data|);
      var n: int := *;
      if n > most || n <= 0 {
        n := most;
      }
      out, ok := data[..n], true;
      data := data[n..];
    }

    /** io.ReadFull: whatever the sizes of the raw reads, `k` bytes, or all that was left when the stream ends first. */
    method ReadFull(k: nat) returns (out: Data, ok: bool)
      modifies this
      ensures ok <==> |old(data)| >= k
      ensures ok ==> out == old(data)[..k] && data == old(data)[k..]
      ensures !ok ==> out == old(data) && data == []
    {
      out, ok := [], true;
      while |out| < k && ok
        invariant |out| <= k && out + data == old(data)
        invariant !ok ==> data == [] && |out| < k
        decreases k - |out|, ok
      {
        var part;
        part, ok := Read(k - |out|);
        out := out + part;
      }
    }
  }
}
