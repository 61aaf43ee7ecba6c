/** The SPI transport the driver talks through (`wiringPiSPIDataRW`).

    The transport is not part of the model: it is a scripted oracle.  Each
    transfer sends one frame on a chip-select channel, takes the next
    scripted reply, reports a byte count in `0..len`, and leaves the
    received bytes in the caller's buffer (the transfer is full duplex, so
    the reply overwrites the frame in place). */
module Spi {
  import opened FixedWidth

  /** What the device answers to one transfer: the count the transport
      reports and the bytes clocked back.  A count outside `0..len` is
      clamped; reply bytes beyond `len` are never clocked in. */
  datatype Reply = Reply(count: int, data: seq<Byte>)

  /** One transfer as it appeared on the wire. */
  datatype Frame = Frame(channel: int, bytes: seq<Byte>)

  /** The reply used when the script has run out: nothing was transferred. */
  const Silence: Reply := Reply(0, [])

  /** The reply the `k`-th transfer from now receives. */
  function ReplyAt(replies: seq<Reply>, k: nat): Reply
  {
    if k < |replies| then replies[k] else Silence
  }

  /** The script left after `k` transfers. */
  function Drop(replies: seq<Reply>, k: nat): (rest: seq<Reply>)
    ensures |rest| == if k < |replies| then |replies| - k else 0
  {
    if k < |replies| then replies[k..] else []
  }

  /** Reply `j` of what is left after `k` transfers is reply `k + j`. */
  lemma DropAt(replies: seq<Reply>, k: nat, j: nat)
    ensures ReplyAt(Drop(replies, k), j) == ReplyAt(replies, k + j)
  {
  }

  /** The byte count a transfer of `len` bytes reports. */
  function Delivered(r: Reply, len: nat): (n: nat)
    ensures n <= len
    ensures 0 <= r.count <= len ==> n == r.count
  {
    if r.count < 0 then 0 else if r.count > len then len else r.count
  }

  /** The buffer after a full-duplex transfer of `sent`. */
  function Received(r: Reply, sent: seq<Byte>): (buf: seq<Byte>)
    ensures |buf| == |sent|
    ensures forall i {:trigger buf[i]} :: 0 <= i < |buf| ==>
              buf[i] == (if i < |r.data| then r.data[i] else sent[i])
  {
    seq(|sent|, i requires 0 <= i < |sent| =>
      if i < |r.data| then r.data[i] else sent[i])
  }

  /** `s` with `src` copied over it from index `offset` on: the caller's
      buffer after a read delivered `src` there. */
  function Splice(s: seq<Byte>, offset: nat, src: seq<Byte>): (r: seq<Byte>)
    requires offset + |src| <= |s|
    ensures |r| == |s|
    ensures forall k {:trigger r[k]} :: 0 <= k < |s| ==>
              r[k] == (if offset <= k < offset + |src| then src[k - offset] else s[k])
  {
    seq(|s|, k requires 0 <= k < |s| =>
      if offset <= k < offset + |src| then src[k - offset] else s[k])
  }

  /** Splicing a block over a whole buffer of its length gives the block. */
  lemma SpliceWhole(s: seq<Byte>, src: seq<Byte>)
    requires |src| == |s|
    ensures Splice(s, 0, src) == src
  {
  }

  /** Two blocks spliced one after the other from the start of a buffer. */
  lemma SpliceTwo(s: seq<Byte>, a: seq<Byte>, b: seq<Byte>)
    requires |a| + |b| <= |s|
    ensures Splice(Splice(s, 0, a), |a|, b)[..|a| + |b|] == a + b
  {
  }

  /** Dropping one reply after `k` is dropping `k + 1`. */
  lemma DropStep(replies: seq<Reply>, k: nat)
    ensures Drop(Drop(replies, k), 1) == Drop(replies, k + 1)
  {
  }

  class Bus {
    /** The device's scripted answers, consumed one per transfer. */
    var replies: seq<Reply>
    /** Every frame put on the wire, oldest first. */
    var sent: seq<Frame>

    constructor (script: seq<Reply>)
      ensures replies == script && sent == []
    {
      replies := script;
      sent := [];
    }

    /** `wiringPiSPIDataRW(channel, buf, len)`. */
    method DataRW(channel: int, buf: array<Byte>, len: nat) returns (n: int)
      requires len <= buf.Length
      modifies this, buf
      ensures n == Delivered(ReplyAt(old(replies), 0), len)
      ensures sent == old(sent) + [Frame(channel, old(buf[..len]))]
      ensures replies == Drop(old(replies), 1)
      ensures buf[..len] == Received(ReplyAt(old(replies), 0), old(buf[..len]))
      ensures buf[len..] == old(buf[len..])
    {
      var r := ReplyAt(replies, 0);
      sent := sent + [Frame(channel, buf[..len])];
      replies := Drop(replies, 1);
      forall i | 0 <= i < len && i < |r.data| {
        buf[i] := r.data[i];
      }
      n := Delivered(r, len);
    }
  }
}
