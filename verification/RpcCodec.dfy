/** The RPC message header: the C++ encoder and decoder, and the Python client's own codec. */
module RpcCodec {
  import opened Bytes

  const MAX_HEAD_LEN: nat := 256
  const MAX_NAME: nat := 244
  const BUFF_LEN: nat := 1024 * 1024

  // ---- the Python client ----

  /** struct.pack(">III%ds%ds", 12 + len(name) + len(data), ret, len(name), name, data) */
  function Pack(ret: uint32, name: seq<byte>, data: seq<byte>): (s: seq<byte>)
    requires 12 + |name| + |data| < 0x1_0000_0000
    ensures |s| == 12 + |name| + |data|
  {
    BE(12 + |name| + |data|, 4) + BE(ret, 4) + BE(|name|, 4) + name + data
  }

  /** Python's s[i:j] */
  function PySlice(s: seq<byte>, i: nat, j: nat): seq<byte> {
    var (i', j') := (Min(i, |s|), Min(j, |s|));
    if i' <= j' then s[i'..j'] else []
  }

  const RECV_LEN: nat := 2048

  datatype Datagram = Datagram(ret: nat, name: seq<byte>, datalen: nat, data: seq<byte>)

  /** UdpSocket.recv: None where an exception leaves it (short datagram, or `namestr` unbound). */
  function UdpRecv(datagram: seq<byte>): Option<Datagram> {
    var h := PySlice(datagram, 0, RECV_LEN);
    if |h| < 12 then None
    else
      var (datalen, ret, namelen) := (FromBE(h[0..4]), FromBE(h[4..8]), FromBE(h[8..12]));
      if namelen == 0 then None
      else
        Some(Datagram(ret, PySlice(h, 12, 12 + namelen), datalen,
                      if datalen > 12 + namelen then PySlice(h, 12 + namelen, datalen) else []))
  }

  // ---- the C++ decoder ----

  /** Overread stands for a Decode that reads behind the message. */
  datatype Decoded = Accepted(ret: nat, name: seq<byte>, data: Option<nat>, datalen: nat) | Rejected | Overread

  function Decode(msg: seq<byte>): Decoded {
    if |msg| < 12 then Overread
    else
      var (len, ret, declared) := (FromBE(msg[0..4]), FromBE(msg[4..8]), FromBE(msg[8..12]));
      var hlen := (12 + declared) % 0x1_0000_0000;
      var nameLen := if hlen > MAX_HEAD_LEN then (declared - (hlen - MAX_HEAD_LEN)) % 0x1_0000_0000 else declared;
      if len != |msg| || len < hlen then Rejected
      else if 12 + nameLen > |msg| then Overread
      else Accepted(ret, msg[12..12 + nameLen], if len == hlen then None else Some(hlen), |msg| - hlen)
  }

  /** The payload a caller finds through Data and DataLen. */
  function Payload(msg: seq<byte>, d: Decoded): seq<byte>
    requires d.Accepted?
  {
    if d.data.None? then [] else PySlice(msg, d.data.value, d.data.value + d.datalen)
  }

  /** What is accepted: a true length, and a header that does not run past the message. */
  lemma AcceptedIff(msg: seq<byte>)
    requires 12 <= |msg| < 0x8000_0000
    ensures var declared := FromBE(msg[8..12]);
      && (Decode(msg).Accepted? <==> FromBE(msg[0..4]) == |msg| && 12 + declared <= |msg|)
      && (Decode(msg).Accepted? ==>
            var d := Decode(msg);
            && d.ret == FromBE(msg[4..8]) && d.datalen == |msg| - 12 - declared
            && d.name == msg[12..12 + Min(declared, 244)]
            && d.data == if d.datalen == 0 then None else Some(12 + declared))
  {
    hide FromBE, BE;
    HeaderWords(msg);
  }

  lemma PackFields(ret: uint32, name: seq<byte>, data: seq<byte>)
    requires 12 + |name| + |data| < 0x1_0000_0000
    ensures var s := Pack(ret, name, data);
      && FromBE(s[0..4]) == |s| && FromBE(s[4..8]) == ret && FromBE(s[8..12]) == |name|
      && s[12..12 + |name|] == name && s[12 + |name|..] == data
  {
    hide BE, FromBE;
    var s := Pack(ret, name, data);
    FourBytes();
    BERoundTrip(12 + |name| + |data|, 4);
    BERoundTrip(ret, 4);
    BERoundTrip(|name|, 4);
    assert s[0..4] == BE(12 + |name| + |data|, 4);
    assert s[4..8] == BE(ret, 4);
    assert s[8..12] == BE(|name|, 4);
  }

  /**
   * Decoding what was packed gives the return code and the payload back, and of the name
   * its first 244 bytes.
   */
  lemma DecodePack(ret: uint32, name: seq<byte>, data: seq<byte>)
    requires 12 + |name| + |data| < 0x8000_0000
    ensures var s := Pack(ret, name, data); var d := Decode(s);
      && d.Accepted? && d.ret == ret && d.datalen == |data|
      && d.name == name[..Min(|name|, MAX_NAME)]
      && Payload(s, d) == data
      && (d.data.None? <==> data == [])
  {
    hide Pack, FromBE;
    PackFields(ret, name, data);
    var s := Pack(ret, name, data);
    var n := Min(|name|, MAX_NAME);
    assert s[12..12 + n] == s[12..12 + |name|][..n];
    assert s[12 + |name|..|s|] == s[12 + |name|..];
  }

  /** The whole triple comes back exactly when the name fits into the fixed header. */
  lemma RoundTripIff(ret: uint32, name: seq<byte>, data: seq<byte>)
    requires 12 + |name| + |data| < 0x8000_0000
    ensures var s := Pack(ret, name, data); var d := Decode(s);
      && d.Accepted?
      && ((d.ret == ret && d.name == name && Payload(s, d) == data) <==> |name| <= MAX_NAME)
  {
    hide Pack, Decode, Payload;
    DecodePack(ret, name, data);
    if |name| <= MAX_NAME {
      assert name[..|name|] == name;
    }
  }

  /** Packing an accepted message again reproduces it, exactly when its name was not cut. */
  lemma EncodeDecoded(msg: seq<byte>)
    requires |msg| < 0x8000_0000 && Decode(msg).Accepted?
    ensures var d := Decode(msg);
      && d.ret < 0x1_0000_0000
      && 12 + |d.name| + |Payload(msg, d)| < 0x1_0000_0000
      && (Pack(d.ret, d.name, Payload(msg, d)) == msg <==> FromBE(msg[8..12]) <= MAX_NAME)
  {
    hide FromBE, BE, Pack;
    HeaderWords(msg);
    var d := Decode(msg);
    var declared := FromBE(msg[8..12]);
    var p := Payload(msg, d);
    if declared <= MAX_NAME {
      PackAgain(msg, declared, d, p);
    } else {
      assert |Pack(d.ret, d.name, p)| != |msg|;
    }
  }

  lemma PackAgain(msg: seq<byte>, declared: nat, d: Decoded, p: seq<byte>)
    requires 12 + declared <= |msg| < 0x8000_0000 && d.Accepted? && d.ret < 0x1_0000_0000
    requires FromBE(msg[0..4]) == |msg| && FromBE(msg[4..8]) == d.ret && FromBE(msg[8..12]) == declared
    requires d.name == msg[12..12 + declared] && p == msg[12 + declared..]
    ensures Pack(d.ret, d.name, p) == msg
  {
    hide FromBE, BE;
    HeaderWords(msg);
    FiveParts(msg, declared);
  }

  lemma HeaderWords(msg: seq<byte>)
    requires 12 <= |msg|
    ensures BE(FromBE(msg[0..4]), 4) == msg[0..4] && FromBE(msg[0..4]) < 0x1_0000_0000
    ensures BE(FromBE(msg[4..8]), 4) == msg[4..8] && FromBE(msg[4..8]) < 0x1_0000_0000
    ensures BE(FromBE(msg[8..12]), 4) == msg[8..12] && FromBE(msg[8..12]) < 0x1_0000_0000
  {
    hide FromBE, BE;
    FourBytes();
    FromBERoundTrip(msg[0..4]);
    FromBERoundTrip(msg[4..8]);
    FromBERoundTrip(msg[8..12]);
  }

  lemma FiveParts(msg: seq<byte>, n: nat)
    requires 12 + n <= |msg|
    ensures msg[0..4] + msg[4..8] + msg[8..12] + msg[12..12 + n] + msg[12 + n..] == msg
  {
  }

  /** Decode reads behind the message exactly for a short message or a name length that wraps. */
  lemma OverreadIff(msg: seq<byte>)
    requires |msg| < 0x8000_0000
    ensures Decode(msg).Overread? <==>
      |msg| < 12 ||
      (var declared := FromBE(msg[8..12]);
       FromBE(msg[0..4]) == |msg| && 0x1_0000_0000 <= 12 + declared <= 0x1_0000_0000 + |msg|)
  {
    hide FromBE;
    if 12 <= |msg| {
      HeaderWords(msg);
    }
  }

  /** What the Python client makes of any datagram of at most 2048 bytes. */
  lemma UdpRecvIs(d: seq<byte>)
    requires |d| <= 2048
    ensures UdpRecv(d) == None <==> |d| < 12 || FromBE(d[8..12]) == 0
    ensures UdpRecv(d).Some? ==>
      var (r, n) := (UdpRecv(d).value, FromBE(d[8..12]));
      && r.datalen == FromBE(d[0..4]) && r.ret == FromBE(d[4..8])
      && r.name == d[12..Min(12 + n, |d|)]
      && r.data == if 12 + n < r.datalen && 12 + n < |d| then d[12 + n..Min(r.datalen, |d|)] else []
  {
    hide FromBE;
    assert PySlice(d, 0, RECV_LEN) == d;
  }

  /** The Python client gets the triple back exactly for a named message of at most 2048 bytes. */
  lemma UdpRoundTripIff(ret: uint32, name: seq<byte>, data: seq<byte>)
    requires 12 + |name| + |data| < 0x1_0000_0000
    ensures var s := Pack(ret, name, data);
      UdpRecv(s) == Some(Datagram(ret, name, |s|, data)) <==> name != [] && |s| <= 2048
  {
    hide Pack, FromBE;
    var s := Pack(ret, name, data);
    PackFields(ret, name, data);
    var h := PySlice(s, 0, RECV_LEN);
    assert 12 <= |h| && h[0..4] == s[0..4] && h[4..8] == s[4..8] && h[8..12] == s[8..12];
    if |s| <= RECV_LEN {
      assert h == s;
    }
  }

  /** A name of 245 bytes loses its last byte, and an unnamed message cannot be read by the client. */
  lemma NamesThatDoNotReturn(name: seq<byte>, data: seq<byte>)
    requires name == seq(245, _ => 65) && data == [1]
    ensures var d := Decode(Pack(0, name, data)); d.Accepted? && d.name == name[..244]
    ensures UdpRecv(Pack(0, [], data)) == None
  {
    hide Pack, FromBE, Decode, Payload;
    DecodePack(0, name, data);
    PackFields(0, [], data);
    var s := Pack(0, [], data);
    assert PySlice(s, 0, RECV_LEN) == s;
  }

  /** A message of four bytes, and one of twelve whose name length wraps. */
  lemma MessagesThatOverread()
    ensures Decode([0, 0, 0, 4]).Overread?
    ensures Decode([0, 0, 0, 12, 0, 0, 0, 0, 255, 255, 255, 255]).Overread?
  {
    hide FromBE, BE;
    var msg: seq<byte> := [0, 0, 0, 12, 0, 0, 0, 0, 255, 255, 255, 255];
    assert msg[0..4] == [0, 0, 0, 12] && msg[8..12] == [255, 255, 255, 255];
    FourValues(0, 0, 0, 12);
    FourValues(255, 255, 255, 255);
  }

  lemma FourValues(a: byte, b: byte, c: byte, d: byte)
    ensures FromBE([a, b, c, d]) == ((a as nat * 256 + b as nat) * 256 + c as nat) * 256 + d as nat
  {
    var s := [a, b, c, d];
    assert s[..3] == [a, b, c] && s[..3][..2] == [a, b] && s[..3][..2][..1] == [a];
    assert FromBE([a]) == a as nat by { assert [a][..0] == []; }
    assert FromBE([a, b]) == a as nat * 256 + b as nat by { assert [a, b][..1] == [a]; }
    assert FromBE([a, b, c]) == (a as nat * 256 + b as nat) * 256 + c as nat by { assert [a, b, c][..2] == [a, b]; }
  }
}
