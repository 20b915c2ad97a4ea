/** The WebSocket client of the screenshot script (scripts/screenshots.py:168-216),
    against sections 5.2 and 5.3 of RFC 6455. */
module WebSocket {
  import opened Wrappers

  type Byte = b: int | 0 <= b < 256

  function Pow2(k: nat): nat { if k == 0 then 1 else 2 * Pow2(k - 1) }

  /** The low k bits of a and b, combined bit by bit. */
  function XorBits(a: nat, b: nat, k: nat): (r: nat)
    ensures r < Pow2(k)
  {
    if k == 0 then 0 else 2 * XorBits(a / 2, b / 2, k - 1) + if a % 2 != b % 2 then 1 else 0
  }

  function Xor(a: Byte, b: Byte): Byte {
    assert Pow2(8) == 256 by {
      assert Pow2(4) == 16;
    }
    XorBits(a, b, 8)
  }

  lemma {:induction false} XorBitsTwice(a: nat, b: nat, k: nat)
    requires a < Pow2(k)
    ensures XorBits(XorBits(a, b, k), b, k) == a
  {
    if k > 0 {
      var x := XorBits(a, b, k);
      assert x / 2 == XorBits(a / 2, b / 2, k - 1) && x % 2 == if a % 2 != b % 2 then 1 else 0;
      XorBitsTwice(a / 2, b / 2, k - 1);
    }
  }

  lemma XorTwice(a: Byte, b: Byte)
    ensures Xor(Xor(a, b), b) == a
  {
    assert Pow2(8) == 256 by {
      assert Pow2(4) == 16;
    }
    XorBitsTwice(a, b, 8);
  }

  /** Bit k of n, the lowest being bit 0. */
  function Bit(n: nat, k: nat): nat { if k == 0 then n % 2 else Bit(n / 2, k - 1) }

  lemma {:induction false} XorBit(a: nat, b: nat, w: nat, k: nat)
    requires k < w
    ensures Bit(XorBits(a, b, w), k) == 1 <==> Bit(a, k) != Bit(b, k)
  {
    var x := XorBits(a, b, w);
    assert x / 2 == XorBits(a / 2, b / 2, w - 1) && x % 2 == if a % 2 != b % 2 then 1 else 0;
    if k > 0 {
      XorBit(a / 2, b / 2, w - 1, k - 1);
    }
  }

  // ---- numbers in network byte order ----

  function Pow256(k: nat): nat { if k == 0 then 1 else 256 * Pow256(k - 1) }

  /** struct.pack of k bytes, big-endian. */
  function Pack(n: nat, k: nat): (bs: seq<Byte>)
    ensures |bs| == k
  {
    if k == 0 then [] else Pack(n / 256, k - 1) + [n % 256]
  }

  function Unpack(bs: seq<Byte>): nat {
    if bs == [] then 0 else 256 * Unpack(bs[..|bs| - 1]) + bs[|bs| - 1]
  }

  lemma {:induction false} PackUnpack(n: nat, k: nat)
    requires n < Pow256(k)
    ensures Unpack(Pack(n, k)) == n
  {
    if k > 0 {
      PackUnpack(n / 256, k - 1);
      assert Pack(n, k)[..k - 1] == Pack(n / 256, k - 1);
    }
  }

  /** The first byte is the most significant one. */
  lemma {:induction false} UnpackFirst(a: Byte, bs: seq<Byte>)
    ensures Unpack([a] + bs) == a * Pow256(|bs|) + Unpack(bs)
  {
    if bs == [] {
      assert [a] + bs == [a] && [a][..0] == [];
    } else {
      var n := |bs| - 1;
      assert ([a] + bs)[..n + 1] == [a] + bs[..n];
      UnpackFirst(a, bs[..n]);
    }
  }

  // ---- a frame, as the standard reads it ----

  datatype Frame = Frame(fin: bool, rsv: nat, opcode: nat, masked: bool, lengthBytes: nat, payload: seq<Byte>)

  /** Octet i of the payload is combined with octet i mod 4 of the key. */
  function Unmasked(bs: seq<Byte>, key: seq<Byte>): seq<Byte>
    requires |key| == 4
  {
    seq(|bs|, i requires 0 <= i < |bs| => Xor(bs[i], key[i % 4]))
  }

  /** That is, a bit differs from the payload's exactly where it is set in octet i mod 4 of the key. */
  lemma MaskedBits(bs: seq<Byte>, key: seq<Byte>, i: nat, k: nat)
    requires |key| == 4 && i < |bs| && k < 8
    ensures |Unmasked(bs, key)| == |bs|
    ensures Bit(Unmasked(bs, key)[i], k) == 1 <==> Bit(bs[i], k) != Bit(key[i % 4], k)
  {
    XorBit(bs[i], key[i % 4], 8, k);
  }

  /** How many bytes the extended length has. */
  function Extension(len7: nat): nat { if len7 == 126 then 2 else if len7 == 127 then 8 else 0 }

  /** One frame from the front of a stream, and what follows it. */
  function Decode(bs: seq<Byte>): Option<(Frame, seq<Byte>)> {
    if |bs| < 2 then None
    else
      var len7 := bs[1] % 128;
      var ext := Extension(len7);
      var keyLen := if bs[1] >= 128 then 4 else 0;
      if |bs| < 2 + ext + keyLen then None
      else
        var len := if ext == 0 then len7 else Unpack(bs[2..2 + ext]);
        var body := bs[2 + ext + keyLen..];
        if |body| < len then None
        else
          var payload := if keyLen == 4 then Unmasked(body[..len], bs[2 + ext..2 + ext + 4]) else body[..len];
          Some((Frame(bs[0] >= 128, bs[0] / 16 % 8, bs[0] % 16, keyLen == 4, ext, payload), body[len..]))
  }

  /** The standard wants the shortest form of a length, and the top bit of eight bytes clear. */
  predicate Minimal(f: Frame) {
    f.lengthBytes == (if |f.payload| < 126 then 0 else if |f.payload| < 0x1_0000 then 2 else 8)
    && |f.payload| < 0x8000_0000_0000_0000
  }

  // ---- sending ----

  function LengthField(n: nat, maskBit: nat): (h: seq<Byte>)
    requires maskBit == 0 || maskBit == 128
  {
    if n < 126 then [maskBit + n]
    else if n < 65536 then [maskBit + 126] + Pack(n, 2)
    else [maskBit + 127] + Pack(n, 8)
  }

  /** What send puts on the wire. */
  function Framed(data: seq<Byte>, mask: seq<Byte>): seq<Byte>
    requires |mask| == 4
  {
    [0x81] + LengthField(|data|, 128) + mask + Unmasked(data, mask)
  }

  lemma LengthRead(n: nat, maskBit: nat)
    requires (maskBit == 0 || maskBit == 128) && n < 0x1_0000_0000_0000_0000
    ensures var h := LengthField(n, maskBit); var len7 := h[0] % 128;
      && |h| == 1 + Extension(len7) && (h[0] >= 128 <==> maskBit == 128)
      && n == (if Extension(len7) == 0 then len7 else Unpack(h[1..]))
      && Extension(len7) == if n < 126 then 0 else if n < 65536 then 2 else 8
  {
    var h := LengthField(n, maskBit);
    if n >= 126 {
      var k := Extension(h[0] % 128);
      PackUnpack(n, k);
      assert h[1..] == Pack(n, k);
    }
  }

  lemma UnmaskTwice(data: seq<Byte>, mask: seq<Byte>)
    requires |mask| == 4
    ensures Unmasked(Unmasked(data, mask), mask) == data
  {
    forall i | 0 <= i < |data| ensures Unmasked(Unmasked(data, mask), mask)[i] == data[i] {
      XorTwice(data[i], mask[i % 4]);
    }
  }

  /** Where the parts of a frame lie. */
  lemma FrameParts(first: Byte, h: seq<Byte>, key: seq<Byte>, body: seq<Byte>, rest: seq<Byte>)
    requires h != []
    ensures var bs := [first] + h + key + body + rest; var n := 1 + |h|;
      && bs[0] == first && bs[1] == h[0] && bs[1..n] == h && |bs| == n + |key| + |body| + |rest|
      && bs[n..n + |key|] == key && bs[n + |key|..] == body + rest
      && (body + rest)[..|body|] == body && (body + rest)[|body|..] == rest
  {
    var bs := [first] + h + key + body + rest;
    assert bs[1..1 + |h|] == h;
    assert bs[1 + |h|..1 + |h| + |key|] == key;
    assert bs[1 + |h| + |key|..] == body + rest;
  }

  /** How a header with this length field is decoded. */
  lemma DecodeParts(first: Byte, n: nat, maskBit: nat, key: seq<Byte>, body: seq<Byte>, rest: seq<Byte>)
    requires (maskBit == 128 && |key| == 4) || (maskBit == 0 && key == [])
    requires |body| == n < 0x1_0000_0000_0000_0000
    ensures Decode([first] + LengthField(n, maskBit) + key + body + rest)
         == Some((Frame(first >= 128, first / 16 % 8, first % 16, maskBit == 128,
                        if n < 126 then 0 else if n < 65536 then 2 else 8,
                        if maskBit == 128 then Unmasked(body, key) else body), rest))
  {
    var h := LengthField(n, maskBit);
    var bs := [first] + h + key + body + rest;
    LengthRead(n, maskBit);
    FrameParts(first, h, key, body, rest);
    var ext := Extension(h[0] % 128);
    assert bs[2..2 + ext] == h[1..] by {
      assert bs[1..1 + |h|][1..] == bs[2..1 + |h|];
    }
    DecodeSlices(bs, ext, key, body, rest);
  }

  lemma DecodeSlices(bs: seq<Byte>, ext: nat, key: seq<Byte>, body: seq<Byte>, rest: seq<Byte>)
    requires 2 <= |bs| && ext == Extension(bs[1] % 128) && |bs| == 2 + ext + |key| + |body| + |rest|
    requires |key| == if bs[1] >= 128 then 4 else 0
    requires |body| == if ext == 0 then bs[1] % 128 else Unpack(bs[2..2 + ext])
    requires bs[2 + ext..2 + ext + |key|] == key && bs[2 + ext + |key|..] == body + rest
    requires (body + rest)[..|body|] == body && (body + rest)[|body|..] == rest
    ensures var payload := if |key| == 4 then Unmasked(body, key) else body;
      Decode(bs) == Some((Frame(bs[0] >= 128, bs[0] / 16 % 8, bs[0] % 16, |key| == 4, ext, payload), rest))
  {}

  /** A decoder that follows the standard gets back exactly what was sent: one final,
      masked text frame, its length in the shortest form. */
  lemma SentIsDecoded(data: seq<Byte>, mask: seq<Byte>, rest: seq<Byte>)
    requires |mask| == 4 && |data| < 0x8000_0000_0000_0000
    ensures var f := Frame(true, 0, 1, true, if |data| < 126 then 0 else if |data| < 65536 then 2 else 8, data);
      Decode(Framed(data, mask) + rest) == Some((f, rest)) && Minimal(f)
  {
    DecodeParts(0x81, |data|, 128, mask, Unmasked(data, mask), rest);
    UnmaskTwice(data, mask);
    assert Framed(data, mask) + rest == [0x81] + LengthField(|data|, 128) + mask + Unmasked(data, mask) + rest;
  }

  // ---- receiving ----

  /** A frame of the server: unmasked, not fragmented. */
  datatype ServerFrame = ServerFrame(opcode: nat, payload: seq<Byte>)

  predicate FrameOk(f: ServerFrame) { f.opcode < 16 && |f.payload| < 0x8000_0000_0000_0000 }

  function Encoded(f: ServerFrame): seq<Byte>
    requires FrameOk(f)
  {
    [128 + f.opcode] + LengthField(|f.payload|, 0) + f.payload
  }

  function Stream(fs: seq<ServerFrame>): seq<Byte>
    requires forall f <- fs :: FrameOk(f)
  {
    if fs == [] then [] else Encoded(fs[0]) + Stream(fs[1..])
  }

  /** What recv takes from a stream: the first text frame, and what is left. */
  function NextText(bs: seq<Byte>): (r: Option<(seq<Byte>, seq<Byte>)>)
    decreases |bs|
  {
    match Skipped(bs)
    case None => None
    case Some((opcode, payload, rest)) => if opcode == 1 then Some((payload, rest)) else NextText(rest)
  }

  /** One round of recv: it reads the length, ignores the mask bit, and takes the payload. */
  function Skipped(bs: seq<Byte>): (r: Option<(nat, seq<Byte>, seq<Byte>)>)
    ensures r.Some? ==> |r.value.2| < |bs|
  {
    if |bs| < 2 then None
    else
      var len7 := bs[1] % 128;
      var ext := Extension(len7);
      if |bs| < 2 + ext then None
      else
        var len := if ext == 0 then len7 else Unpack(bs[2..2 + ext]);
        var body := bs[2 + ext..];
        if |body| < len then None else Some((bs[0] % 16, body[..len], body[len..]))
  }

  /** For unmasked frames that round agrees with the standard. */
  lemma SkippedIsDecoded(bs: seq<Byte>)
    requires Decode(bs).Some? && !Decode(bs).value.0.masked
    ensures Skipped(bs) == Some((Decode(bs).value.0.opcode, Decode(bs).value.0.payload, Decode(bs).value.1))
  {}

  lemma EncodedSkipped(f: ServerFrame, rest: seq<Byte>)
    requires FrameOk(f)
    ensures Skipped(Encoded(f) + rest) == Some((f.opcode, f.payload, rest))
  {
    EncodedDecoded(f, rest);
    SkippedIsDecoded(Encoded(f) + rest);
  }

  lemma EncodedDecoded(f: ServerFrame, rest: seq<Byte>)
    requires FrameOk(f)
    ensures var d := Decode(Encoded(f) + rest);
      && d.Some? && !d.value.0.masked
      && d.value.0.opcode == f.opcode && d.value.0.payload == f.payload && d.value.1 == rest
  {
    var h := LengthField(|f.payload|, 0);
    DecodeParts(128 + f.opcode, |f.payload|, 0, [], f.payload, rest);
    assert [128 + f.opcode] + h + [] == [128 + f.opcode] + h;
  }

  function TextPayloads(fs: seq<ServerFrame>): seq<seq<Byte>> {
    if fs == [] then [] else (if fs[0].opcode == 1 then [fs[0].payload] else []) + TextPayloads(fs[1..])
  }

  /** All texts of a stream, as repeated recv finds them. */
  function Texts(bs: seq<Byte>): seq<seq<Byte>>
    decreases |bs|
  {
    match Skipped(bs)
    case None => []
    case Some((opcode, payload, rest)) => (if opcode == 1 then [payload] else []) + Texts(rest)
  }

  /** They are the payloads of the text frames, in order; an incomplete frame at the end adds none. */
  lemma {:induction false} StreamTexts(fs: seq<ServerFrame>, tail: seq<Byte>)
    requires (forall f <- fs :: FrameOk(f)) && Skipped(tail).None?
    ensures Texts(Stream(fs) + tail) == TextPayloads(fs)
  {
    if fs == [] {
      assert Stream(fs) + tail == tail;
    } else {
      var rest := Stream(fs[1..]) + tail;
      assert Stream(fs) + tail == Encoded(fs[0]) + rest;
      EncodedSkipped(fs[0], rest);
      StreamTexts(fs[1..], tail);
    }
  }

  lemma {:induction false} TextsFromNext(bs: seq<Byte>)
    ensures Texts(bs) == match NextText(bs) case None => [] case Some((payload, rest)) => [payload] + Texts(rest)
    decreases |bs|
  {
    if Skipped(bs).Some? && Skipped(bs).value.0 != 1 {
      TextsFromNext(Skipped(bs).value.2);
    }
  }

  // ---- the client ----

  /** What one recv of the socket gives; an empty answer is the end of the stream. */
  type Chunk = c: seq<Byte> | c != [] witness [0]

  function Concat(chunks: seq<Chunk>): seq<Byte> {
    if chunks == [] then [] else chunks[0] + Concat(chunks[1..])
  }

  class WS {
    var buf: seq<Byte>
    /** What the socket will yet deliver, chunk by chunk; then it is at its end. */
    var chunks: seq<Chunk>
    var sent: seq<Byte>

    /** All that is left to read, however it is cut up. */
    ghost function Flow(): seq<Byte>
      reads this
    {
      buf + Concat(chunks)
    }

    method Send(data: seq<Byte>, mask: seq<Byte>) returns (ok: bool)
      requires |mask| == 4
      modifies this`sent
      ensures ok <==> |data| < 0x1_0000_0000_0000_0000
      ensures sent == if ok then old(sent) + Framed(data, mask) else old(sent)
    {
      var n := |data|;
      var hdr: seq<Byte> := [0x81];
      if n < 126 {
        hdr := hdr + [0x80 + n];
      } else if n < 65536 {
        hdr := hdr + [0x80 + 126] + Pack(n, 2);
      } else if n < 0x1_0000_0000_0000_0000 {
        hdr := hdr + [0x80 + 127] + Pack(n, 8);
      } else {
        return false;
      }
      var masked: seq<Byte> := [];
      var i := 0;
      while i < n
        invariant 0 <= i <= n && masked == Unmasked(data, mask)[..i]
      {
        masked := masked + [Xor(data[i], mask[i % 4])];
        i := i + 1;
      }
      assert hdr == [0x81] + LengthField(n, 128);
      sent := sent + (hdr + mask + masked);
      ok := true;
    }

    /** _read: None at the end of the stream. */
    method Read(n: nat) returns (out: Option<seq<Byte>>)
      modifies this`buf, this`chunks
      ensures out.Some? <==> n <= |old(Flow())|
      ensures out.Some? ==> out.value == old(Flow())[..n] && Flow() == old(Flow())[n..]
      ensures out.None? ==> Flow() == old(Flow())
    {
      while |buf| < n
        invariant Flow() == old(Flow())
        decreases |chunks|
      {
        if chunks == [] {
          return None;
        }
        assert buf + (chunks[0] + Concat(chunks[1..])) == buf + chunks[0] + Concat(chunks[1..]);
        buf, chunks := buf + chunks[0], chunks[1..];
      }
      out := Some(buf[..n]);
      assert (buf + Concat(chunks))[..n] == buf[..n];
      buf := buf[n..];
    }

    /** One frame, read piece by piece. */
    method ReadFrame() returns (frame: Option<(nat, seq<Byte>)>)
      modifies this`buf, this`chunks
      ensures frame.None? <==> Skipped(old(Flow())).None?
      ensures frame.Some? ==> Skipped(old(Flow())) == Some((frame.value.0, frame.value.1, Flow()))
    {
      ghost var all := Flow();
      var head := Read(2);
      if head.None? {
        return None;
      }
      assert head.value[0] == all[0] && head.value[1] == all[1];
      var len7 := head.value[1] % 128;
      var len := len7;
      var ext := Extension(len7);
      if ext > 0 {
        var field := Read(ext);
        if field.None? {
          return None;
        }
        assert field.value == all[2..2 + ext];
        len := Unpack(field.value);
      }
      assert Flow() == all[2 + ext..];
      var payload := Read(len);
      if payload.None? {
        return None;
      }
      frame := Some((head.value[0] % 16, payload.value));
    }

    /** recv: the same text for every way of cutting the stream into chunks. */
    method Recv() returns (text: Option<seq<Byte>>)
      modifies this`buf, this`chunks
      ensures text.None? <==> NextText(old(Flow())).None?
      ensures text.Some? ==> NextText(old(Flow())) == Some((text.value, Flow()))
    {
      var done := false;
      text := None;
      while !done
        invariant !done ==> NextText(Flow()) == NextText(old(Flow()))
        invariant done ==> text.Some? && NextText(old(Flow())) == Some((text.value, Flow()))
        decreases !done, |Flow()|
      {
        var frame := ReadFrame();
        if frame.None? {
          return None;
        }
        if frame.value.0 == 1 {
          text, done := Some(frame.value.1), true;
        }
      }
    }

    /** recv again and again until the end of the stream. */
    method RecvAll() returns (texts: seq<seq<Byte>>)
      modifies this`buf, this`chunks
      ensures texts == Texts(old(Flow()))
    {
      texts := [];
      var done := false;
      while !done
        invariant texts + (if done then [] else Texts(Flow())) == Texts(old(Flow()))
        decreases !done, |Flow()|
      {
        OneTextMore(texts, Flow());
        var text := Recv();
        if text.None? {
          done := true;
        } else {
          texts := texts + [text.value];
        }
      }
    }

    /** It gets the payloads of the text frames that the server sent, in order, however the
        stream was cut into chunks. */
    method RecvStream(ghost fs: seq<ServerFrame>, ghost tail: seq<Byte>) returns (texts: seq<seq<Byte>>)
      requires (forall f <- fs :: FrameOk(f)) && Skipped(tail).None? && Flow() == Stream(fs) + tail
      modifies this`buf, this`chunks
      ensures texts == TextPayloads(fs)
    {
      StreamTexts(fs, tail);
      texts := RecvAll();
    }
  }

  lemma OneTextMore(texts: seq<seq<Byte>>, bs: seq<Byte>)
    ensures match NextText(bs)
      case None => texts + Texts(bs) == texts
      case Some((payload, rest)) => texts + Texts(bs) == texts + [payload] + Texts(rest) && |rest| < |bs|
  {
    TextsFromNext(bs);
    NextTextShorter(bs);
    if NextText(bs).Some? {
      var (payload, rest) := NextText(bs).value;
      Regroup(texts, payload, Texts(rest));
    }
  }

  lemma Regroup(a: seq<seq<Byte>>, x: seq<Byte>, b: seq<seq<Byte>>)
    ensures a + ([x] + b) == a + [x] + b
  {}

  lemma {:induction false} NextTextShorter(bs: seq<Byte>)
    ensures NextText(bs).Some? ==> |NextText(bs).value.1| < |bs|
    decreases |bs|
  {
    if Skipped(bs).Some? && Skipped(bs).value.0 != 1 {
      NextTextShorter(Skipped(bs).value.2);
    }
  }
}
