/**
 Kitty graphics escapes: base64 payloads cut into chunks, each in its own `APC` escape, and the tmux
 passthrough envelope. Every printer has a parser here that inverts it.
 */
module Graphics {
  import opened Options
  import opened Octets

  // ----- Base64, section 4 of RFC 4648

  const PAD: Byte := 61

  /** The symbol of a 6-bit value. */
  function Symbol(v: nat): Byte
    requires v < 64
  {
    if v < 26 then 65 + v else if v < 52 then 71 + v else if v < 62 then v - 4 else if v == 62 then 43 else 47
  }

  /** The alphabet of table 1: upper case, lower case, digits, `+` and `/`; `=` pads. */
  lemma {:induction false} SymbolsAreAlphabet(v: nat)
    requires v < 64
    ensures Symbol(v)
         == if v < 26 then 'A' as int + v
            else if v < 26 + 26 then 'a' as int + (v - 26)
            else if v < 26 + 26 + 10 then '0' as int + (v - 52)
            else if v == 62 then '+' as int
            else '/' as int
    ensures PAD == '=' as int
  {
  }

  function SymbolValue(c: Byte): Option<nat> {
    if 65 <= c <= 90 then Some(c - 65)
    else if 97 <= c <= 122 then Some(c - 71)
    else if 48 <= c <= 57 then Some(c + 4)
    else if c == 43 then Some(62)
    else if c == 47 then Some(63)
    else None
  }

  /** The 24 bits of three bytes. */
  function Bits(b0: Byte, b1: Byte, b2: Byte): (n: nat)
    ensures n < 16777216
  {
    (b0 as int * 256 + b1 as int) * 256 + b2 as int
  }

  /** The `i`-th sextet of 24 bits, from the top. */
  function Sextet(n: nat, i: nat): (v: nat)
    ensures v < 64
  {
    if i == 0 then n / 64 / 64 / 64 % 64
    else if i == 1 then n / 64 / 64 % 64
    else if i == 2 then n / 64 % 64
    else n % 64
  }

  /** Up to three bytes as four symbols, padded. */
  function EncodeChunk(chunk: seq<Byte>): (q: seq<Byte>)
    requires 1 <= |chunk| <= 3
    ensures |q| == 4
  {
    var n := Bits(chunk[0], if |chunk| > 1 then chunk[1] else 0, if |chunk| > 2 then chunk[2] else 0);
    [Symbol(Sextet(n, 0)), Symbol(Sextet(n, 1)),
     if |chunk| > 1 then Symbol(Sextet(n, 2)) else PAD,
     if |chunk| > 2 then Symbol(Sextet(n, 3)) else PAD]
  }

  function Base64(data: seq<Byte>): seq<Byte> {
    if |data| == 0 then []
    else if |data| <= 3 then EncodeChunk(data)
    else EncodeChunk(data[..3]) + Base64(data[3..])
  }

  method Encode64(data: seq<Byte>) returns (out: seq<Byte>)
    ensures out == Base64(data)
  {
    out := [];
    var i: nat := 0;
    while i < |data|
      invariant i <= |data| && out + Base64(data[i..]) == Base64(data)
    {
      var n := if i + 3 <= |data| then i + 3 else |data|;
      EncodeStep(out, data, i, n);
      out := out + EncodeChunk(data[i..n]);
      i := n;
    }
  }

  lemma {:induction false} EncodeStep(out: seq<Byte>, data: seq<Byte>, i: nat, n: nat)
    requires i < |data| && n == if i + 3 <= |data| then i + 3 else |data|
    ensures out + Base64(data[i..]) == (out + EncodeChunk(data[i..n])) + Base64(data[n..])
  {
    if i + 3 < |data| {
      assert data[i..][..3] == data[i..n] && data[i..][3..] == data[n..];
    } else {
      assert data[i..n] == data[i..] && data[n..] == [];
    }
  }

  /** One quad: three bytes, or fewer when it is padded. */
  function DecodeQuad(q: seq<Byte>): Option<seq<Byte>>
    requires |q| == 4
  {
    var v0, v1 := SymbolValue(q[0]), SymbolValue(q[1]);
    var v2 := if q[2] == PAD && q[3] == PAD then Some(0) else SymbolValue(q[2]);
    var v3 := if q[3] == PAD then Some(0) else SymbolValue(q[3]);
    if v0.None? || v1.None? || v2.None? || v3.None? then None
    else
      var count := if q[2] == PAD then 1 else if q[3] == PAD then 2 else 3;
      Some(Bytes3(FromSextets(v0.value, v1.value, v2.value, v3.value))[..count])
  }

  function FromSextets(v0: nat, v1: nat, v2: nat, v3: nat): nat {
    ((v0 * 64 + v1) * 64 + v2) * 64 + v3
  }

  function Bytes3(n: nat): (b: seq<Byte>)
    ensures |b| == 3
  {
    [n / 256 / 256 % 256, n / 256 % 256, n % 256]
  }

  /** Padding ends the text. */
  function Decode64(s: seq<Byte>): Option<seq<Byte>> {
    if s == [] then Some([])
    else if |s| < 4 then None
    else match DecodeQuad(s[..4])
      case None => None
      case Some(head) =>
        if |head| < 3 && |s| > 4 then None
        else match Decode64(s[4..])
          case None => None
          case Some(tail) => Some(head + tail)
  }

  lemma {:induction false} SymbolRoundTrip(v: nat)
    requires v < 64
    ensures SymbolValue(Symbol(v)) == Some(v) && Symbol(v) != PAD && Symbol(v) != ESC_BYTE
  {
  }

  lemma {:induction false} SextetsRebuild(n: nat)
    requires n < 16777216
    ensures FromSextets(Sextet(n, 0), Sextet(n, 1), Sextet(n, 2), Sextet(n, 3)) == n
  {
  }

  lemma {:induction false} BytesRebuild(b0: Byte, b1: Byte, b2: Byte)
    ensures Bytes3(Bits(b0, b1, b2)) == [b0, b1, b2]
  {
    var n := Bits(b0, b1, b2);
    assert n / 256 == b0 as int * 256 + b1 as int && n % 256 == b2;
  }

  /** A missing byte leaves its own sextet, and with two missing the one before, all zero. */
  lemma {:induction false} MissingIsZero(b0: Byte, b1: Byte)
    ensures Sextet(Bits(b0, b1, 0), 3) == 0
    ensures Sextet(Bits(b0, 0, 0), 2) == 0
  {
    var n := Bits(b0, b1, 0);
    assert n == (b0 as int * 1024 + b1 as int * 4) * 64;
    assert Bits(b0, 0, 0) == b0 as int * 16 * 64 * 64;
    assert Bits(b0, 0, 0) / 64 == b0 as int * 16 * 64;
  }

  lemma {:induction false} QuadOfSymbols(n: nat, len: nat)
    requires n < 16777216 && 1 <= len <= 3
    requires len < 3 ==> Sextet(n, 3) == 0
    requires len < 2 ==> Sextet(n, 2) == 0
    ensures DecodeQuad([Symbol(Sextet(n, 0)), Symbol(Sextet(n, 1)),
                        if len > 1 then Symbol(Sextet(n, 2)) else PAD,
                        if len > 2 then Symbol(Sextet(n, 3)) else PAD]) == Some(Bytes3(n)[..len])
  {
    SymbolRoundTrip(Sextet(n, 0));
    SymbolRoundTrip(Sextet(n, 1));
    SymbolRoundTrip(Sextet(n, 2));
    SymbolRoundTrip(Sextet(n, 3));
    SextetsRebuild(n);
  }

  lemma {:induction false} ChunkRoundTrip(chunk: seq<Byte>)
    requires 1 <= |chunk| <= 3
    ensures DecodeQuad(EncodeChunk(chunk)) == Some(chunk)
  {
    var b1: Byte := if |chunk| > 1 then chunk[1] else 0;
    var b2: Byte := if |chunk| > 2 then chunk[2] else 0;
    MissingIsZero(chunk[0], b1);
    BytesRebuild(chunk[0], b1, b2);
    QuadOfSymbols(Bits(chunk[0], b1, b2), |chunk|);
    assert [chunk[0], b1, b2][..|chunk|] == chunk;
  }

  /** Decoding the base64 of any bytes gives them back. */
  lemma {:induction false} Base64RoundTrip(data: seq<Byte>)
    ensures Decode64(Base64(data)) == Some(data)
    decreases |data|
  {
    if 0 < |data| <= 3 {
      ChunkRoundTrip(data);
      var q := Base64(data);
      assert q[..4] == q && q[4..] == [];
      assert data + [] == data;
    } else if |data| > 3 {
      ChunkRoundTrip(data[..3]);
      Base64RoundTrip(data[3..]);
      var q := Base64(data);
      assert q[..4] == EncodeChunk(data[..3]) && q[4..] == Base64(data[3..]);
      assert data == data[..3] + data[3..];
    }
  }

  // ----- Chunks of the payload are payloads of chunks

  const CHUNK: nat := 4096
  /** The bytes that fill one chunk: 1024 quads of three. */
  const CHUNK_BYTES: nat := 3072

  function Chunks(s: seq<Byte>, size: nat): seq<seq<Byte>>
    requires size > 0
    decreases |s|
  {
    if |s| <= size then [s] else [s[..size]] + Chunks(s[size..], size)
  }

  function Flatten(parts: seq<seq<Byte>>): seq<Byte> {
    if parts == [] then [] else parts[0] + Flatten(parts[1..])
  }

  function Base64All(parts: seq<seq<Byte>>): seq<seq<Byte>> {
    if parts == [] then [] else [Base64(parts[0])] + Base64All(parts[1..])
  }

  lemma {:induction false} FlattenChunks(s: seq<Byte>, size: nat)
    requires size > 0
    ensures Flatten(Chunks(s, size)) == s
    decreases |s|
  {
    var parts := Chunks(s, size);
    if |s| <= size {
      assert parts[1..] == [] && parts[0] + [] == s;
    } else {
      FlattenChunks(s[size..], size);
      assert parts[1..] == Chunks(s[size..], size);
      assert s[..size] + s[size..] == s;
    }
  }

  lemma {:induction false} Base64Length(data: seq<Byte>)
    ensures |Base64(data)| == (|data| + 2) / 3 * 4
    decreases |data|
  {
    if |data| > 3 {
      var n := |data| - 3;
      Base64Length(data[3..]);
      assert (n + 5) / 3 == (n + 2) / 3 + 1;
    }
  }

  lemma {:induction false} SmallPayload(data: seq<Byte>)
    ensures |Base64(data)| <= CHUNK <==> |data| <= CHUNK_BYTES
  {
    Base64Length(data);
  }

  /** Whole triples encode apart from what follows them. */
  lemma {:induction false} Base64Splits(data: seq<Byte>, n: nat)
    requires 3 * n < |data|
    ensures |Base64(data)| > 4 * n
    ensures Base64(data)[..4 * n] == Base64(data[..3 * n]) && Base64(data)[4 * n..] == Base64(data[3 * n..])
    decreases n
  {
    if n == 0 {
      Base64Length(data);
      assert data[..0] == [] && data[0..] == data;
      assert Base64(data)[0..] == Base64(data);
    } else {
      var rest := data[3..];
      Base64Splits(rest, n - 1);
      var q := EncodeChunk(data[..3]);
      assert Base64(data) == q + Base64(rest);
      assert rest[3 * (n - 1)..] == data[3 * n..];
      HeadTriple(data, n, q, rest);
    }
  }

  lemma {:induction false} HeadTriple(data: seq<Byte>, n: nat, q: seq<Byte>, rest: seq<Byte>)
    requires n > 0 && 3 * n < |data| && rest == data[3..] && q == EncodeChunk(data[..3])
    ensures Base64(data[..3 * n]) == q + Base64(rest[..3 * (n - 1)])
  {
    var head := data[..3 * n];
    assert head[..3] == data[..3];
    if n == 1 {
      assert head == data[..3] && rest[..0] == [];
      assert q + [] == q;
    } else {
      assert head[3..] == rest[..3 * (n - 1)];
    }
  }

  /** Cutting the payload at 4096 symbols is cutting the image at 3072 bytes. */
  lemma {:induction false} ChunksOfBase64(data: seq<Byte>)
    ensures Chunks(Base64(data), CHUNK) == Base64All(Chunks(data, CHUNK_BYTES))
    decreases |data|
  {
    SmallPayload(data);
    if |data| <= CHUNK_BYTES {
      assert [data][1..] == [];
    } else {
      var head, tail := data[..CHUNK_BYTES], data[CHUNK_BYTES..];
      Base64Splits(data, 1024);
      ChunksOfBase64(tail);
      assert ([head] + Chunks(tail, CHUNK_BYTES))[1..] == Chunks(tail, CHUNK_BYTES);
    }
  }

  lemma {:induction false} Base64AllAt(parts: seq<seq<Byte>>)
    ensures |Base64All(parts)| == |parts|
    ensures forall i :: 0 <= i < |parts| ==> Base64All(parts)[i] == Base64(parts[i])
    decreases |parts|
  {
    if parts != [] {
      Base64AllAt(parts[1..]);
    }
  }

  lemma {:induction false} ChunkSizes(s: seq<Byte>, size: nat, i: nat)
    requires size > 0 && i < |Chunks(s, size)|
    ensures i + 1 < |Chunks(s, size)| ==> |Chunks(s, size)[i]| == size
    ensures |Chunks(s, size)[i]| <= size && (s != [] ==> Chunks(s, size)[i] != [])
    decreases |s|
  {
    if |s| > size && i > 0 {
      ChunkSizes(s[size..], size, i - 1);
      assert Chunks(s, size)[i] == Chunks(s[size..], size)[i - 1];
    }
  }

  // ----- The escapes

  const SEMICOLON: Byte := 59
  const BACKSLASH: Byte := 92
  /** `ESC _ G`. */
  const APC: seq<Byte> := [ESC_BYTE, 95, 71]
  /** `ESC \`. */
  const ST: seq<Byte> := [ESC_BYTE, BACKSLASH]

  function Digits(n: nat): seq<Byte> {
    if n < 10 then [48 + n] else Digits(n / 10) + [48 + n % 10]
  }

  /** The control keys: `a=t,f=100,i={id},q=2,m={more}` on the first chunk, `m={more}` on the others. */
  function Control(id: nat, first: bool, more: bool): seq<Byte> {
    (if first then [97, 61, 116, 44, 102, 61, 49, 48, 48, 44, 105, 61] + Digits(id) + [44, 113, 61, 50, 44] else [])
    + [109, 61] + (if more then [49] else [48])
  }

  datatype Escape = Escape(control: seq<Byte>, payload: seq<Byte>)

  function Print(e: Escape): seq<Byte> {
    APC + e.control + [SEMICOLON] + e.payload + ST
  }

  function Escapes(id: nat, chunks: seq<seq<Byte>>, first: bool): seq<Escape>
    decreases |chunks|
  {
    if chunks == [] then []
    else [Escape(Control(id, first, |chunks| > 1), chunks[0])] + Escapes(id, chunks[1..], false)
  }

  function PrintAll(es: seq<Escape>): seq<Byte> {
    if es == [] then [] else Print(es[0]) + PrintAll(es[1..])
  }

  /** The escapes of an image; none for an empty one. */
  function TransmitEscapes(id: nat, png: seq<Byte>): seq<Escape> {
    if Base64(png) == [] then [] else Escapes(id, Chunks(Base64(png), CHUNK), true)
  }

  method TransmitPng(id: nat, png: seq<Byte>) returns (out: seq<Byte>)
    ensures out == PrintAll(TransmitEscapes(id, png))
  {
    var payload := Encode64(png);
    out := [];
    if payload == [] {
      return;
    }
    var chunks := Chunks(payload, CHUNK);
    var first := true;
    for i := 0 to |chunks|
      invariant first == (i == 0)
      invariant out + PrintAll(Escapes(id, chunks[i..], first)) == PrintAll(Escapes(id, chunks, true))
    {
      var more := i + 1 < |chunks|;
      PrintStep(out, id, chunks, i, first);
      out := out + Print(Escape(Control(id, first, more), chunks[i]));
      first := false;
    }
  }

  lemma {:induction false} PrintStep(out: seq<Byte>, id: nat, chunks: seq<seq<Byte>>, i: nat, first: bool)
    requires i < |chunks|
    ensures out + PrintAll(Escapes(id, chunks[i..], first))
         == (out + Print(Escape(Control(id, first, i + 1 < |chunks|), chunks[i])))
            + PrintAll(Escapes(id, chunks[i + 1..], false))
  {
    var e := Escape(Control(id, first, i + 1 < |chunks|), chunks[i]);
    assert chunks[i..][1..] == chunks[i + 1..];
    assert Escapes(id, chunks[i..], first) == [e] + Escapes(id, chunks[i + 1..], false);
    assert ([e] + Escapes(id, chunks[i + 1..], false))[1..] == Escapes(id, chunks[i + 1..], false);
  }

  // ----- Reading the stream back

  datatype Cut = Cut(before: seq<Byte>, after: seq<Byte>)

  /** The bytes up to the first `stop`, and those after it. */
  function CutAt(s: seq<Byte>, stop: Byte): Option<Cut> {
    if s == [] then None
    else if s[0] == stop then Some(Cut([], s[1..]))
    else match CutAt(s[1..], stop)
      case None => None
      case Some(c) => Some(Cut([s[0]] + c.before, c.after))
  }

  lemma {:induction false} CutFinds(a: seq<Byte>, stop: Byte, rest: seq<Byte>)
    requires stop !in a
    ensures CutAt(a + [stop] + rest, stop) == Some(Cut(a, rest))
  {
    var s := a + [stop] + rest;
    if a == [] {
      assert s[1..] == rest;
    } else {
      assert s[1..] == a[1..] + [stop] + rest;
      CutFinds(a[1..], stop, rest);
      assert s[0] == a[0] && [a[0]] + a[1..] == a;
    }
  }

  /** A terminal's reader of a stream of `APC _G` escapes. */
  function Parse(s: seq<Byte>): Option<seq<Escape>>
    decreases |s|
  {
    if s == [] then Some([])
    else if |s| < 3 || s[..3] != [0x1B, '_' as int, 'G' as int] then None
    else match CutAt(s[3..], ';' as int)
      case None => None
      case Some(c) => match CutAt(c.after, 0x1B)
        case None => None
        case Some(p) =>
          if p.after == [] || p.after[0] != '\\' as int || |p.after| >= |s| then None
          else match Parse(p.after[1..])
            case None => None
            case Some(es) => Some([Escape(c.before, p.before)] + es)
  }

  /** A control part without a semicolon and a payload without an ESC: what the reader can tell apart. */
  predicate Readable(e: Escape) {
    SEMICOLON !in e.control && ESC_BYTE !in e.payload
  }

  lemma {:induction false} ParseOne(e: Escape, rest: seq<Byte>)
    requires Readable(e)
    ensures Parse(Print(e) + rest)
         == match Parse(rest) case None => None case Some(es) => Some([e] + es)
  {
    var s := Print(e) + rest;
    var body := e.payload + [ESC_BYTE] + ([BACKSLASH] + rest);
    assert s[..3] == APC;
    assert s[3..] == e.control + [SEMICOLON] + body;
    CutFinds(e.control, SEMICOLON, body);
    CutFinds(e.payload, ESC_BYTE, [BACKSLASH] + rest);
    assert ([BACKSLASH] + rest)[1..] == rest;
  }

  lemma {:induction false} ParseAll(es: seq<Escape>)
    requires forall i :: 0 <= i < |es| ==> Readable(es[i])
    ensures Parse(PrintAll(es)) == Some(es)
  {
    if es != [] {
      ParseAll(es[1..]);
      ParseOne(es[0], PrintAll(es[1..]));
      assert [es[0]] + es[1..] == es;
    }
  }

  lemma {:induction false} DigitsAreDigits(n: nat)
    ensures forall b :: b in Digits(n) ==> 48 <= b <= 57
    decreases n
  {
    if n >= 10 {
      DigitsAreDigits(n / 10);
    }
  }

  lemma {:induction false} Base64HasNoEsc(data: seq<Byte>)
    ensures ESC_BYTE !in Base64(data)
    decreases |data|
  {
    if |data| > 3 {
      Base64HasNoEsc(data[3..]);
      ChunkHasNoEsc(data[..3]);
    } else if |data| > 0 {
      ChunkHasNoEsc(data);
    }
  }

  lemma {:induction false} ChunkHasNoEsc(chunk: seq<Byte>)
    requires 1 <= |chunk| <= 3
    ensures ESC_BYTE !in EncodeChunk(chunk)
  {
  }

  lemma {:induction false} EscapesAt(id: nat, chunks: seq<seq<Byte>>, first: bool, i: nat)
    requires i < |chunks|
    ensures |Escapes(id, chunks, first)| == |chunks|
    ensures Escapes(id, chunks, first)[i]
         == Escape(Control(id, first && i == 0, i + 1 < |chunks|), chunks[i])
    decreases |chunks|
  {
    if i > 0 {
      EscapesAt(id, chunks[1..], false, i - 1);
    } else if |chunks| > 1 {
      EscapesAt(id, chunks[1..], false, 0);
    } else {
      assert chunks[1..] == [];
    }
  }

  lemma {:induction false} EscapesReadable(id: nat, png: seq<Byte>, i: nat)
    requires i < |Chunks(Base64(png), CHUNK)|
    ensures var es := Escapes(id, Chunks(Base64(png), CHUNK), true); i < |es| && Readable(es[i])
  {
    var parts := Chunks(png, CHUNK_BYTES);
    ChunksOfBase64(png);
    Base64AllAt(parts);
    EscapesAt(id, Chunks(Base64(png), CHUNK), true, i);
    DigitsAreDigits(id);
    Base64HasNoEsc(parts[i]);
  }

  // ----- Reading the control keys

  /** One `key=value`. */
  datatype Field = Field(key: seq<Byte>, value: seq<Byte>)

  /** A terminal's reader of a control part: fields between commas. */
  function Fields(s: seq<Byte>): Option<seq<Field>>
    decreases |s|
  {
    match CutAt(s, '=' as int)
    case None => None
    case Some(k) => match CutAt(k.after, ',' as int)
      case None => Some([Field(k.before, k.after)])
      case Some(v) =>
        if |v.after| >= |s| then None
        else match Fields(v.after)
          case None => None
          case Some(fs) => Some([Field(k.before, v.before)] + fs)
  }

  lemma {:induction false} CutMisses(s: seq<Byte>, stop: Byte)
    requires stop !in s
    ensures CutAt(s, stop) == None
  {
    if s != [] {
      CutMisses(s[1..], stop);
    }
  }

  lemma {:induction false} LastField(key: seq<Byte>, value: seq<Byte>)
    requires '=' as int !in key && ',' as int !in value
    ensures Fields(key + ['=' as int] + value) == Some([Field(key, value)])
  {
    CutFinds(key, '=' as int, value);
    CutMisses(value, ',' as int);
  }

  lemma {:induction false} NextField(key: seq<Byte>, value: seq<Byte>, rest: seq<Byte>)
    requires '=' as int !in key && ',' as int !in value && Fields(rest).Some?
    ensures Fields(key + ['=' as int] + (value + [',' as int] + rest)) == Some([Field(key, value)] + Fields(rest).value)
  {
    CutFinds(key, '=' as int, value + [',' as int] + rest);
    CutFinds(value, ',' as int, rest);
  }

  /** A decimal number. */
  function Number(s: seq<Byte>): Option<nat> {
    if s == [] || !(48 <= s[|s| - 1] <= 57) then None
    else if |s| == 1 then Some(s[0] - 48)
    else match Number(s[..|s| - 1]) case None => None case Some(n) => Some(10 * n + (s[|s| - 1] - 48))
  }

  lemma {:induction false} DigitsReadBack(n: nat)
    ensures Number(Digits(n)) == Some(n)
    decreases n
  {
    if n >= 10 {
      DigitsReadBack(n / 10);
      assert Digits(n)[..|Digits(n)| - 1] == Digits(n / 10);
    }
  }

  /** What the control part of a chunk says: the flag `m` always, and on the first chunk alone that it
      transmits (`a=t`) a PNG (`f=100`) under this id, quietly (`q=2`). */
  ghost predicate Says(control: seq<Byte>, id: nat, first: bool, more: bool) {
    var m := Field(['m' as int], [if more then '1' as int else '0' as int]);
    if !first then Fields(control) == Some([m])
    else exists d ::
      && Number(d) == Some(id)
      && Fields(control) == Some([Field(['a' as int], ['t' as int]),
                                  Field(['f' as int], ['1' as int, '0' as int, '0' as int]),
                                  Field(['i' as int], d), Field(['q' as int], ['2' as int]), m])
  }

  function FlagField(more: bool): Field {
    Field([109], [if more then 49 else 48])
  }

  function FlagPart(more: bool): seq<Byte> {
    [109] + [61] + [if more then 49 else 48]
  }

  function QuietPart(more: bool): seq<Byte> {
    [113] + [61] + ([50] + [44] + FlagPart(more))
  }

  function IdPart(id: nat, more: bool): seq<Byte> {
    [105] + [61] + (Digits(id) + [44] + QuietPart(more))
  }

  function FormatPart(id: nat, more: bool): seq<Byte> {
    [102] + [61] + ([49, 48, 48] + [44] + IdPart(id, more))
  }

  lemma {:induction false} FlagSays(more: bool)
    ensures Fields(FlagPart(more)) == Some([FlagField(more)])
  {
    LastField([109], [if more then 49 else 48]);
  }

  lemma {:induction false} QuietSays(more: bool)
    ensures Fields(QuietPart(more)) == Some([Field([113], [50]), FlagField(more)])
  {
    FlagSays(more);
    NextField([113], [50], FlagPart(more));
    assert [Field([113], [50])] + [FlagField(more)] == [Field([113], [50]), FlagField(more)];
  }

  lemma {:induction false} IdSays(id: nat, more: bool)
    ensures Fields(IdPart(id, more)) == Some([Field([105], Digits(id)), Field([113], [50]), FlagField(more)])
  {
    QuietSays(more);
    DigitsAreDigits(id);
    NextField([105], Digits(id), QuietPart(more));
    var i, q := Field([105], Digits(id)), Field([113], [50]);
    assert [i] + [q, FlagField(more)] == [i, q, FlagField(more)];
  }

  lemma {:induction false} FormatSays(id: nat, more: bool)
    ensures Fields(FormatPart(id, more))
         == Some([Field([102], [49, 48, 48]), Field([105], Digits(id)), Field([113], [50]), FlagField(more)])
  {
    IdSays(id, more);
    NextField([102], [49, 48, 48], IdPart(id, more));
    var f, i, q := Field([102], [49, 48, 48]), Field([105], Digits(id)), Field([113], [50]);
    assert [f] + [i, q, FlagField(more)] == [f, i, q, FlagField(more)];
  }

  lemma {:induction false} FirstFields(id: nat, more: bool)
    ensures Fields([97] + [61] + ([116] + [44] + FormatPart(id, more)))
         == Some([Field([97], [116]), Field([102], [49, 48, 48]), Field([105], Digits(id)), Field([113], [50]),
                  FlagField(more)])
  {
    FormatSays(id, more);
    NextField([97], [116], FormatPart(id, more));
    var a, f, i, q := Field([97], [116]), Field([102], [49, 48, 48]), Field([105], Digits(id)), Field([113], [50]);
    assert [a] + [f, i, q, FlagField(more)] == [a, f, i, q, FlagField(more)];
  }

  lemma {:induction false} ControlParts(id: nat, more: bool)
    ensures Control(id, false, more) == FlagPart(more)
    ensures Control(id, true, more) == [97] + [61] + ([116] + [44] + FormatPart(id, more))
  {
  }

  lemma {:induction false} ControlSays(id: nat, first: bool, more: bool)
    ensures Says(Control(id, first, more), id, first, more)
  {
    ControlParts(id, more);
    FirstFields(id, more);
    FlagSays(more);
    DigitsReadBack(id);
  }

  /** What a terminal reads of a transmitted image: one escape per chunk, `m=1` on all but the last, the
      keys on the first; each payload decodes alone, and the decoded pieces in order are the image. */
  lemma {:induction false} TransmittedImageReadsBack(id: nat, png: seq<Byte>)
    requires png != []
    ensures Parse(PrintAll(TransmitEscapes(id, png))) == Some(TransmitEscapes(id, png))
    ensures var parts, es := Chunks(png, CHUNK_BYTES), TransmitEscapes(id, png);
            && |es| == |parts| && Flatten(parts) == png
            && forall i :: 0 <= i < |es| ==>
                 && Says(es[i].control, id, i == 0, i + 1 < |es|)
                 && Decode64(es[i].payload) == Some(parts[i])
                 && (i + 1 < |es| ==> |es[i].payload| == CHUNK)
  {
    var parts, chunks, es := Chunks(png, CHUNK_BYTES), Chunks(Base64(png), CHUNK), TransmitEscapes(id, png);
    Base64Length(png);
    ChunksOfBase64(png);
    Base64AllAt(parts);
    FlattenChunks(png, CHUNK_BYTES);
    EscapesAt(id, chunks, true, 0);
    forall i | 0 <= i < |es|
      ensures Readable(es[i]) && Says(es[i].control, id, i == 0, i + 1 < |es|)
      ensures Decode64(es[i].payload) == Some(parts[i])
      ensures i + 1 < |es| ==> |es[i].payload| == CHUNK
    {
      EscapesReadable(id, png, i);
      EscapesAt(id, chunks, true, i);
      ControlSays(id, i == 0, i + 1 < |es|);
      Base64RoundTrip(parts[i]);
      ChunkSizes(Base64(png), CHUNK, i);
    }
    ParseAll(es);
  }

  // ----- The tmux envelope

  /** `ESC P tmux ;`. */
  const ENVELOPE: seq<Byte> := [ESC_BYTE, 80, 116, 109, 117, 120, 59]

  function Doubled(s: seq<Byte>): seq<Byte> {
    if s == [] then [] else (if s[0] == ESC_BYTE then [ESC_BYTE] else []) + [s[0]] + Doubled(s[1..])
  }

  method WrapTmux(escape: seq<Byte>) returns (out: seq<Byte>)
    ensures out == Wrapped(escape)
  {
    out := ENVELOPE;
    for i := 0 to |escape|
      invariant out + Doubled(escape[i..]) == ENVELOPE + Doubled(escape)
    {
      assert escape[i..][1..] == escape[i + 1..];
      if escape[i] == ESC_BYTE {
        out := out + [ESC_BYTE];
      }
      out := out + [escape[i]];
    }
    out := out + ST;
  }

  /** tmux's reader: an ESC is followed by an ESC for itself or by a backslash that ends the envelope. */
  function Undouble(s: seq<Byte>): Option<Cut>
    decreases |s|
  {
    if s == [] then None
    else if s[0] != ESC_BYTE then
      match Undouble(s[1..]) case None => None case Some(c) => Some(Cut([s[0]] + c.before, c.after))
    else if |s| < 2 then None
    else if s[1] == '\\' as int then Some(Cut([], s[2..]))
    else if s[1] == ESC_BYTE then
      match Undouble(s[2..]) case None => None case Some(c) => Some(Cut([ESC_BYTE] + c.before, c.after))
    else None
  }

  lemma {:induction false} UndoubleByte(b: Byte, inner: seq<Byte>, c: Cut)
    requires Undouble(inner) == Some(c)
    ensures Undouble((if b == ESC_BYTE then [ESC_BYTE] else []) + [b] + inner) == Some(Cut([b] + c.before, c.after))
  {
    var s := (if b == ESC_BYTE then [ESC_BYTE] else []) + [b] + inner;
    if b == ESC_BYTE {
      assert s[0] == ESC_BYTE && s[1] == ESC_BYTE && s[2..] == inner;
    } else {
      assert s[0] == b && s[1..] == inner;
    }
  }

  lemma {:induction false} UndoubleReadsBack(escape: seq<Byte>, rest: seq<Byte>)
    ensures Undouble(Doubled(escape) + ST + rest) == Some(Cut(escape, rest))
  {
    if escape == [] {
      var s := [] + ST + rest;
      assert s[0] == ESC_BYTE && s[1] == BACKSLASH && s[2..] == rest;
    } else {
      var b, inner := escape[0], Doubled(escape[1..]) + ST + rest;
      UndoubleReadsBack(escape[1..], rest);
      UndoubleByte(b, inner, Cut(escape[1..], rest));
      assert Doubled(escape) + ST + rest == (if b == ESC_BYTE then [ESC_BYTE] else []) + [b] + inner;
      assert [b] + escape[1..] == escape;
    }
  }

  /** tmux's passthrough: `ESC P tmux ;` opens the envelope. */
  function Unwrap(s: seq<Byte>): Option<Cut> {
    var open := [0x1B, 'P' as int, 't' as int, 'm' as int, 'u' as int, 'x' as int, ';' as int];
    if |s| < 7 || s[..7] != open then None else Undouble(s[7..])
  }

  function Wrapped(escape: seq<Byte>): seq<Byte> {
    ENVELOPE + Doubled(escape) + ST
  }

  /** The reader gets back any escape, and meets the end of the envelope exactly where it was written,
      whatever follows it. */
  lemma {:induction false} TmuxReadsBack(escape: seq<Byte>, rest: seq<Byte>)
    ensures Unwrap(Wrapped(escape) + rest) == Some(Cut(escape, rest))
  {
    var s := Wrapped(escape) + rest;
    assert s[..7] == ENVELOPE && s[7..] == Doubled(escape) + ST + rest;
    UndoubleReadsBack(escape, rest);
  }
}
