/** The header object of the RPC layer, and the buffer in which it is put before a payload. */
module RpcHeads {
  import opened Bytes
  import Codec = RpcCodec

  class RpcHead {
    var len: uint32
    var ret: uint32
    var name: seq<byte>
    var dataLen: uint32
    /** Offset of the payload in the decoded message; None is the null pointer. */
    var data: Option<nat>

    constructor ()
      ensures len == 0
    {
      len := 0;
      ret := 0;
      name := [];
      dataLen := 0;
      data := None;
    }

    function HeadLen(): nat
      reads this`name
    {
      12 + |name|
    }

    /** Writes the header so that it ends where the payload begins, at offset 256. */
    method Encode(buf: array<byte>, datalen: nat) returns (sidx: int)
      requires Codec.MAX_HEAD_LEN + datalen <= buf.Length && 12 + |name| + datalen < 0x1_0000_0000
      modifies this`len, this`dataLen, buf
      ensures dataLen == datalen && len == 12 + |name| + datalen
      ensures sidx == if |name| <= Codec.MAX_NAME then Codec.MAX_NAME - |name| else -1
      ensures sidx == -1 ==> buf[..] == old(buf[..])
      ensures 0 <= sidx ==>
        && buf[..sidx] == old(buf[..sidx])
        && buf[Codec.MAX_HEAD_LEN..] == old(buf[Codec.MAX_HEAD_LEN..])
        && buf[sidx..Codec.MAX_HEAD_LEN + datalen]
           == Codec.Pack(ret, name, old(buf[Codec.MAX_HEAD_LEN..Codec.MAX_HEAD_LEN + datalen]))
    {
      hide BE, Splice;
      ghost var was := buf[..];
      var hlen := HeadLen();
      dataLen := datalen;
      len := hlen + dataLen;
      if hlen > Codec.MAX_HEAD_LEN {
        return -1;
      }
      var s := Codec.MAX_HEAD_LEN - hlen;
      Store(buf, s, BE(len, 4));
      Store(buf, s + 4, BE(ret, 4));
      Store(buf, s + 8, BE(|name|, 4));
      Store(buf, s + 12, name);
      FourStores(was, s, BE(len, 4), BE(ret, 4), BE(|name|, 4), name);
      HeaderBeforePayload(was, buf[..], s, BE(len, 4) + BE(ret, 4) + BE(|name|, 4) + name, datalen);
      sidx := s;
    }

    /** Reads a message; a rejected one has changed `len` and `ret` all the same. */
    method Decode(msg: seq<byte>) returns (code: int)
      requires !Codec.Decode(msg).Overread? && |msg| < 0x8000_0000
      modifies this
      ensures len == FromBE(msg[0..4]) && ret == FromBE(msg[4..8])
      ensures code == if Codec.Decode(msg).Accepted? then 0 else -1
      ensures code == 0 ==> Codec.Accepted(ret, name, data, dataLen) == Codec.Decode(msg)
      ensures code == -1 ==> name == old(name) && data == old(data) && dataLen == old(dataLen)
    {
      hide FromBE, BE;
      Codec.HeaderWords(msg);
      len := FromBE(msg[0..4]);
      ret := FromBE(msg[4..8]);
      var nameLen := FromBE(msg[8..12]);
      var hlen := (12 + nameLen) % 0x1_0000_0000;
      if hlen > Codec.MAX_HEAD_LEN {
        nameLen := (nameLen - (hlen - Codec.MAX_HEAD_LEN)) % 0x1_0000_0000;
      }
      if len != |msg| || len < hlen {
        return -1;
      }
      name := msg[12..12 + nameLen];
      if len == hlen {
        data := None;
      } else {
        data := Some(hlen);
      }
      dataLen := |msg| - hlen;
      code := 0;
    }
  }

  lemma FourStores(s: seq<byte>, p: nat, a: seq<byte>, b: seq<byte>, c: seq<byte>, d: seq<byte>)
    requires |a| == |b| == |c| == 4 && p + 12 + |d| <= |s|
    ensures Splice(Splice(Splice(Splice(s, p, a), p + 4, b), p + 8, c), p + 12, d) == Splice(s, p, a + b + c + d)
  {
    SpliceTwice(s, p, a, b);
    SpliceTwice(s, p, a + b, c);
    SpliceTwice(s, p, a + b + c, d);
  }

  lemma HeaderBeforePayload(was: seq<byte>, now: seq<byte>, s: nat, h: seq<byte>, n: nat)
    requires s + |h| + n <= |was| && now == Splice(was, s, h)
    ensures var e := s + |h|;
      now[..s] == was[..s] && now[e..] == was[e..] && now[s..e + n] == h + was[e..e + n]
  {
  }

  /** The RPC object: one large buffer, the header object, and what goes to SendMsg. */
  class IRpc {
    const databuff: array<byte>
    const rhead: RpcHead

    constructor ()
      ensures fresh(databuff) && fresh(rhead) && databuff.Length == Codec.BUFF_LEN
    {
      databuff := new byte[Codec.BUFF_LEN];
      rhead := new RpcHead();
    }

    /** Offset of the room for a payload of `size` bytes; None is the null pointer. */
    method GetDataBuff(size: nat) returns (offset: Option<nat>)
      requires databuff.Length == Codec.BUFF_LEN
      ensures databuff.Length == 1048576
      ensures offset.Some? <==> 256 + size <= 1048576
      ensures offset.Some? ==> offset.value == 256
    {
      if size > Codec.BUFF_LEN - Codec.MAX_HEAD_LEN {
        return None;
      }
      offset := Some(Codec.MAX_HEAD_LEN);
    }

    /** What is handed to SendMsg: the packed message, or nothing when the name is too long. */
    method SendRespond(ret: uint32, name: seq<byte>, datalen: nat) returns (sent: Option<seq<byte>>)
      requires databuff.Length == Codec.BUFF_LEN
      requires Codec.MAX_HEAD_LEN + datalen <= databuff.Length && 12 + |name| + datalen < 0x1_0000_0000
      modifies databuff, rhead
      ensures sent == if |name| > Codec.MAX_NAME then None
        else Some(Codec.Pack(ret, name, old(databuff[Codec.MAX_HEAD_LEN..Codec.MAX_HEAD_LEN + datalen])))
    {
      rhead.ret := ret;
      rhead.name := name;
      var sidx := rhead.Encode(databuff, datalen);
      if sidx < 0 {
        return None;
      }
      sent := Some(databuff[sidx..sidx + rhead.len]);
    }
  }
}
