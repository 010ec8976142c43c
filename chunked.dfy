/**
 * HTTP/1.1 chunked transfer coding, as the web server writes it (section 7.1 of
 * RFC 9112): each chunk is its size in hexadecimal, CRLF, the data, CRLF; the body
 * ends with the last chunk `0` CRLF and an empty trailer section (one more CRLF).
 * `DecodeChunked` reads such a body back and is the reference the encoders are
 * proved against.
 */
module Chunked {
  import opened Common

  const CR: bv8 := 0x0D
  const LF: bv8 := 0x0A
  const CRLF: seq<bv8> := [CR, LF]
  const ZERO_DIGIT: bv8 := 0x30

  /** `0\r\n\r\n`: the last chunk and the end of the body. */
  const LAST_CHUNK: seq<bv8> := [ZERO_DIGIT, CR, LF, CR, LF]

  /** The letters `printf` uses for the digits 10 to 15: `%X` upper case, `%x` lower case. */
  datatype HexCase = Upper | Lower

  predicate IsDecimalDigit(b: bv8)
  {
    0x30 <= b <= 0x39
  }

  /** A hex digit as `printf` writes it in case `cs`. */
  predicate IsDigitOfCase(b: bv8, cs: HexCase)
  {
    IsDecimalDigit(b) || (if cs == Upper then 0x41 <= b <= 0x46 else 0x61 <= b <= 0x66)
  }

  /** HEXDIG as a reader accepts it: either case. */
  predicate IsHexDigit(b: bv8)
  {
    IsDigitOfCase(b, Upper) || IsDigitOfCase(b, Lower)
  }

  function DigitValue(b: bv8): nat
  {
    if IsDecimalDigit(b) then (b - 0x30) as nat
    else if 0x41 <= b <= 0x46 then (b - 0x41) as nat + 10
    else if 0x61 <= b <= 0x66 then (b - 0x61) as nat + 10
    else 0
  }

  function HexDigit(d: nat, cs: HexCase): (b: bv8)
    requires d < 16
    ensures IsDigitOfCase(b, cs) && DigitValue(b) == d
    ensures b == ZERO_DIGIT <==> d == 0
  {
    var v := d as bv8;
    if d < 10 then 0x30 + v
    else if cs == Upper then 0x41 + (v - 10)
    else 0x61 + (v - 10)
  }

  /** The number a run of hex digits denotes, most significant digit first. */
  function HexValue(ds: seq<bv8>): nat
  {
    if ds == [] then 0 else 16 * HexValue(ds[..|ds| - 1]) + DigitValue(ds[|ds| - 1])
  }

  /** `printf("%X", n)` (or `%x`): the digits of `n`, without leading zeros. */
  function Hex(n: nat, cs: HexCase): (ds: seq<bv8>)
    ensures 0 < |ds|
    ensures forall i :: 0 <= i < |ds| ==> IsDigitOfCase(ds[i], cs)
    ensures HexValue(ds) == n
    ensures ds[0] == ZERO_DIGIT ==> ds == [ZERO_DIGIT] && n == 0
    decreases n
  {
    if n < 16 then [HexDigit(n, cs)] else Hex(n / 16, cs) + [HexDigit(n % 16, cs)]
  }

  /** One chunk carrying `data`. */
  function Chunk(data: seq<bv8>, cs: HexCase): seq<bv8>
  {
    Hex(|data|, cs) + CRLF + data + CRLF
  }

  /** The chunks for `payloads`, one after the other. */
  function Frame(payloads: seq<seq<bv8>>, cs: HexCase): seq<bv8>
  {
    if payloads == [] then [] else Chunk(payloads[0], cs) + Frame(payloads[1..], cs)
  }

  /** The payloads concatenated in order. */
  function Flatten(payloads: seq<seq<bv8>>): seq<bv8>
  {
    if payloads == [] then [] else payloads[0] + Flatten(payloads[1..])
  }

  // ---------------------------------------------------------------------------
  // The reader
  // ---------------------------------------------------------------------------

  /** The length of the run of hex digits `s` starts with. */
  function HexRun(s: seq<bv8>): (k: nat)
    ensures k <= |s|
    ensures forall i :: 0 <= i < k ==> IsHexDigit(s[i])
    ensures k < |s| ==> !IsHexDigit(s[k])
  {
    if s != [] && IsHexDigit(s[0]) then 1 + HexRun(s[1..]) else 0
  }

  /**
   * Decodes a chunked body without chunk extensions or trailer fields: the
   * concatenated chunk data, or None when `s` is not such a body.
   */
  function DecodeChunked(s: seq<bv8>): Option<seq<bv8>>
    decreases |s|, 1
  {
    var k := HexRun(s);
    if k == 0 || |s| < k + 2 || s[k] != CR || s[k + 1] != LF then None
    else DecodeChunkData(HexValue(s[..k]), s[k + 2..])
  }

  /** What follows a size line announcing `size` bytes. */
  function DecodeChunkData(size: nat, rest: seq<bv8>): Option<seq<bv8>>
    decreases |rest|, 0
  {
    if size == 0 then
      if rest == CRLF then Some([]) else None
    else if |rest| < size + 2 || rest[size] != CR || rest[size + 1] != LF then None
    else
      match DecodeChunked(rest[size + 2..])
      case None => None
      case Some(tail) => Some(rest[..size] + tail)
  }

  // ---------------------------------------------------------------------------
  // Lemmas
  // ---------------------------------------------------------------------------

  lemma {:induction false} FrameAppend(a: seq<seq<bv8>>, b: seq<seq<bv8>>, cs: HexCase)
    ensures Frame(a + b, cs) == Frame(a, cs) + Frame(b, cs)
  {
    if a == [] {
      assert a + b == b;
    } else {
      assert (a + b)[1..] == a[1..] + b;
      FrameAppend(a[1..], b, cs);
    }
  }

  lemma {:induction false} FlattenAppend(a: seq<seq<bv8>>, b: seq<seq<bv8>>)
    ensures Flatten(a + b) == Flatten(a) + Flatten(b)
  {
    if a == [] {
      assert a + b == b;
    } else {
      assert (a + b)[1..] == a[1..] + b;
      FlattenAppend(a[1..], b);
    }
  }

  /** A reader sees the size line of a chunk as the whole digit run. */
  lemma SizeLineRun(data: seq<bv8>, cs: HexCase, rest: seq<bv8>)
    ensures var digits := Hex(|data|, cs);
      HexRun(digits + CRLF + rest) == |digits|
  {
    var digits := Hex(|data|, cs);
    var s := digits + CRLF + rest;
    var k := HexRun(s);
    assert s[|digits|] == CR;
  }

  /** A reader takes the size line of a chunk for what it announces. */
  lemma DecodeSizeLine(data: seq<bv8>, cs: HexCase, body: seq<bv8>)
    ensures DecodeChunked(Hex(|data|, cs) + CRLF + body) == DecodeChunkData(|data|, body)
  {
    var digits := Hex(|data|, cs);
    var s := digits + CRLF + body;
    SizeLineRun(data, cs, body);
    var k := |digits|;
    assert s[..k] == digits;
    assert s[k] == CR && s[k + 1] == LF;
    assert s[k + 2..] == body;
  }

  /** After its size line, a chunk's data and CRLF are read, then what follows. */
  lemma DecodeData(data: seq<bv8>, rest: seq<bv8>, tail: seq<bv8>)
    requires 0 < |data|
    requires DecodeChunked(rest) == Some(tail)
    ensures DecodeChunkData(|data|, data + CRLF + rest) == Some(data + tail)
  {
    var body := data + CRLF + rest;
    assert body[..|data|] == data;
    assert body[|data|] == CR && body[|data| + 1] == LF;
    assert body[|data| + 2..] == rest;
  }

  /** Reading a non-empty chunk yields its data, then the data of whatever follows. */
  lemma DecodeChunk(data: seq<bv8>, cs: HexCase, rest: seq<bv8>, tail: seq<bv8>)
    requires 0 < |data|
    requires DecodeChunked(rest) == Some(tail)
    ensures DecodeChunked(Chunk(data, cs) + rest) == Some(data + tail)
  {
    var digits := Hex(|data|, cs);
    var body := data + CRLF + rest;
    assert Chunk(data, cs) + rest == digits + CRLF + body by {
      AppendAssoc(digits + CRLF + data, CRLF, rest);
      AppendAssoc(digits + CRLF, data, CRLF + rest);
      AppendAssoc(data, CRLF, rest);
    }
    DecodeSizeLine(data, cs, body);
    DecodeData(data, rest, tail);
  }

  /** The last chunk ends the body and carries nothing. */
  lemma DecodeLastChunk()
    ensures DecodeChunked(LAST_CHUNK) == Some([])
  {
    assert HexRun(LAST_CHUNK) == 1;
    assert LAST_CHUNK[..1] == [ZERO_DIGIT];
    assert HexValue([ZERO_DIGIT]) == 0;
    assert LAST_CHUNK[3..] == CRLF;
  }

  /**
   * A body made of chunks for non-empty `payloads` and the last chunk is well
   * formed, and reading it gives the payloads back, concatenated in order.
   */
  lemma {:induction false} DecodeFrame(payloads: seq<seq<bv8>>, cs: HexCase)
    requires forall i :: 0 <= i < |payloads| ==> 0 < |payloads[i]|
    ensures DecodeChunked(Frame(payloads, cs) + LAST_CHUNK) == Some(Flatten(payloads))
  {
    if payloads == [] {
      assert Frame(payloads, cs) + LAST_CHUNK == LAST_CHUNK;
      DecodeLastChunk();
    } else {
      var head, tail := payloads[0], payloads[1..];
      var rest := Frame(tail, cs) + LAST_CHUNK;
      assert DecodeChunked(rest) == Some(Flatten(tail)) by {
        assert forall i :: 0 <= i < |tail| ==> tail[i] == payloads[i + 1];
        DecodeFrame(tail, cs);
      }
      assert Frame(payloads, cs) + LAST_CHUNK == Chunk(head, cs) + rest by {
        assert Frame(payloads, cs) == Chunk(head, cs) + Frame(tail, cs);
        AppendAssoc(Chunk(head, cs), Frame(tail, cs), LAST_CHUNK);
      }
      assert Flatten(payloads) == head + Flatten(tail);
      DecodeChunk(head, cs, rest, Flatten(tail));
    }
  }

  /** An empty chunk is the last chunk: `0`, CRLF, and the CRLF that ends the body. */
  lemma EmptyChunkIsLast(cs: HexCase)
    ensures Chunk([], cs) == LAST_CHUNK
  {
  }
}
