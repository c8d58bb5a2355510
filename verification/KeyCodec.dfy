/**
 The macro key codec: a key event as the bytes a register stores, and the tolerant decoder that reads
 them back. Bytes below 0x80 and UTF-8 stand for themselves, `0x80` tags the keys no byte holds, and
 `0x80 'm' bits` carries modifiers.
 */
module KeyCodec {
  import opened Options
  import opened Octets

  /** A Unicode scalar value: a code point that is no surrogate. */
  type Scalar = n: int | 0 <= n < 0xD800 || 0xE000 <= n < 0x110000

  datatype Code =
    | Char(c: Scalar) | Enter | Tab | Backspace | Esc | F(n: Byte)
    | Up | Down | Right | Left | Home | End | PageUp | PageDown | Delete | Insert | BackTab
    | Other(id: nat)

  datatype Mods = Mods(shift: bool, ctrl: bool, alt: bool, sup: bool, hyper: bool, meta: bool) {
    /** The modifiers no plain byte holds. */
    function Carried(): Mods {
      Mods(false, false, alt, sup, hyper, meta)
    }

    function Union(m: Mods): Mods {
      Mods(shift || m.shift, ctrl || m.ctrl, alt || m.alt, sup || m.sup, hyper || m.hyper, meta || m.meta)
    }
  }

  const NONE := Mods(false, false, false, false, false, false)
  const CTRL := Mods(false, true, false, false, false, false)

  datatype Key = Key(code: Code, mods: Mods)

  const TAG := 0x80
  const MOD_TAG := 109
  const FN_TAG := 102

  // ----- UTF-8

  function Utf8(c: Scalar): seq<Byte> {
    if c < 0x80 then [c]
    else if c < 0x800 then [0xC0 + c / 64, 0x80 + c % 64]
    else if c < 0x10000 then [0xE0 + c / 64 / 64, 0x80 + c / 64 % 64, 0x80 + c % 64]
    else [0xF0 + c / 64 / 64 / 64, 0x80 + c / 64 / 64 % 64, 0x80 + c / 64 % 64, 0x80 + c % 64]
  }

  function LenUtf8(c: Scalar): nat {
    if c < 0x80 then 1 else if c < 0x800 then 2 else if c < 0x10000 then 3 else 4
  }

  function Utf8Width(lead: Byte): nat {
    if 0xC0 <= lead <= 0xDF then 2
    else if 0xE0 <= lead <= 0xEF then 3
    else if 0xF0 <= lead <= 0xF7 then 4
    else 1
  }

  predicate IsTrail(b: Byte) {
    0x80 <= b < 0xC0
  }

  /** The scalar that `b` starts with, if its lead byte's whole width is one well-formed sequence:
      no truncation, overlong form, surrogate or value past the last code point. */
  function FromUtf8(b: seq<Byte>): Option<Scalar>
    requires b != []
  {
    var w := Utf8Width(b[0]);
    if w == 1 then if b[0] < 0x80 then Some(b[0]) else None
    else if |b| < w || !IsTrail(b[1]) || (w >= 3 && !IsTrail(b[2])) || (w == 4 && !IsTrail(b[3])) then None
    else if w == 2 then
      var v := More(b[0] - 0xC0, b[1]);
      if v >= 0x80 then Some(v) else None
    else if w == 3 then
      var v := More(More(b[0] - 0xE0, b[1]), b[2]);
      if v >= 0x800 && !(0xD800 <= v < 0xE000) then Some(v) else None
    else
      var v := More(More(More(b[0] - 0xF0, b[1]), b[2]), b[3]);
      if 0x10000 <= v < 0x110000 then Some(v) else None
  }

  /** Six more bits, from a trail byte. */
  function More(high: nat, trail: Byte): nat
    requires IsTrail(trail)
  {
    high * 64 + (trail - 0x80)
  }

  lemma {:induction false} Utf8RoundTrip(c: Scalar, rest: seq<Byte>)
    ensures FromUtf8(Utf8(c) + rest) == Some(c) && |Utf8(c)| == LenUtf8(c)
    ensures c >= 0x80 ==> Utf8(c)[0] >= 0xC2
  {
  }

  // ----- Encoding

  predicate IsLetter(c: Scalar) {
    65 <= c <= 90 || 97 <= c <= 122
  }

  function ToLower(c: Scalar): Scalar {
    if 65 <= c <= 90 then c + 32 else c
  }

  /** The C0 byte of a `Ctrl` chord on `c`, as a terminal sends it. */
  function ControlByte(c: Scalar): Option<Byte> {
    if IsLetter(c) then Some(ToLower(c) - 96)
    else if c == 32 || c == 64 || c == 50 then Some(0)
    else if c == 91 then Some(0x1B)
    else if 92 <= c <= 95 then Some(0x1C + (c - 92))
    else if 52 <= c <= 55 then Some(0x1C + (c - 52))
    else None
  }

  function ControlOf(code: Code): Option<Byte> {
    if code.Char? then ControlByte(code.c) else None
  }

  function SpecialTag(code: Code): Option<Byte> {
    match code
    case Up => Some(65) case Down => Some(66) case Right => Some(67) case Left => Some(68)
    case Home => Some(72) case End => Some(70) case PageUp => Some(53) case PageDown => Some(54)
    case Delete => Some(51) case Insert => Some(50) case BackTab => Some(90)
    case _ => None
  }

  function SpecialFromTag(tag: Byte): Option<Code> {
    if tag == 65 then Some(Up) else if tag == 66 then Some(Down)
    else if tag == 67 then Some(Right) else if tag == 68 then Some(Left)
    else if tag == 72 then Some(Home) else if tag == 70 then Some(End)
    else if tag == 53 then Some(PageUp) else if tag == 54 then Some(PageDown)
    else if tag == 51 then Some(Delete) else if tag == 50 then Some(Insert)
    else if tag == 90 then Some(BackTab) else None
  }

  /** The bytes of a key with at most `Ctrl`. */
  function PlainBytes(code: Code, ctrl: bool): Option<seq<Byte>> {
    if ctrl then
      match ControlOf(code) case Some(b) => Some([b]) case None => None
    else match code
      case Char(c) => Some(Utf8(c))
      case Enter => Some([13])
      case Tab => Some([9])
      case Backspace => Some([0x7F])
      case Esc => Some([0x1B])
      case F(n) => Some([TAG, FN_TAG, n])
      case _ => match SpecialTag(code) case Some(t) => Some([TAG, t]) case None => None
  }

  function Bit(b: bool): (n: nat)
    ensures n <= 1
  {
    if b then 1 else 0
  }

  function ModBits(m: Mods): Byte {
    Bit(m.ctrl) + 2 * Bit(m.alt) + 4 * Bit(m.sup) + 8 * Bit(m.hyper) + 16 * Bit(m.meta)
  }

  function BitsMods(b: Byte): Mods {
    Mods(false, b % 2 == 1, b / 2 % 2 == 1, b / 2 / 2 % 2 == 1, b / 2 / 2 / 2 % 2 == 1, b / 2 / 2 / 2 / 2 % 2 == 1)
  }

  /** The modifiers the tag has to carry: the ones no byte holds, and a `Ctrl` with no control byte. */
  function Tagged(key: Key): Mods {
    key.mods.Carried().(ctrl := key.mods.ctrl && ControlOf(key.code).None?)
  }

  /** The rest of the key: its code and a `Ctrl` that a control byte holds. */
  function Untagged(key: Key): Option<seq<Byte>> {
    PlainBytes(key.code, key.mods.ctrl && ControlOf(key.code).Some?)
  }

  function Encode(key: Key): Option<seq<Byte>> {
    match Untagged(key)
    case None => None
    case Some(bytes) =>
      Some(if Tagged(key) == NONE then bytes else [TAG, MOD_TAG, ModBits(Tagged(key))] + bytes)
  }

  // ----- Decoding

  function Drop(b: seq<Byte>, n: nat): seq<Byte> {
    if n <= |b| then b[n..] else []
  }

  predicate AtModTag(b: seq<Byte>) {
    |b| >= 2 && b[0] == TAG && b[1] == MOD_TAG
  }

  /** The modifiers of a run of prefixes, and the bytes after it. */
  datatype Prefix = Prefix(mods: Mods, rest: seq<Byte>)

  function Gather(b: seq<Byte>, mods: Mods): (r: Prefix)
    ensures |r.rest| <= |b|
    decreases |b|
  {
    if AtModTag(b) then Gather(Drop(b, 3), mods.Union(BitsMods(if |b| > 2 then b[2] else 0)))
    else Prefix(mods, b)
  }

  function Ctrl(c: Scalar): Key {
    Key(Char(c), CTRL)
  }

  function Plain(code: Code): Key {
    Key(code, NONE)
  }

  /** One key, unless the bytes name none, and the bytes it took. */
  datatype One = One(key: Option<Key>, width: nat)

  /** One key at the front of `b`. */
  function DecodeOne(b: seq<Byte>): (r: One)
    requires b != []
    ensures r.width >= 1
  {
    if b[0] == 0x1B then One(Some(Plain(Esc)), 1)
    else if b[0] == 13 then One(Some(Plain(Enter)), 1)
    else if b[0] == 9 then One(Some(Plain(Tab)), 1)
    else if b[0] == 0x7F then One(Some(Plain(Backspace)), 1)
    else if 1 <= b[0] <= 0x1A then One(Some(Ctrl(b[0] - 1 + 97)), 1)
    else if b[0] == 0 then One(Some(Ctrl(32)), 1)
    else if 0x1C <= b[0] <= 0x1F then One(Some(Ctrl(b[0] - 0x1C + 52)), 1)
    else if b[0] == TAG then
      if |b| > 1 && b[1] == FN_TAG then One(if |b| > 2 then Some(Plain(F(b[2]))) else None, 3)
      else if |b| > 1 && SpecialFromTag(b[1]).Some? then One(Some(Plain(SpecialFromTag(b[1]).value)), 2)
      else One(None, 2)
    else match FromUtf8(b)
      case Some(c) => One(Some(Plain(Char(c))), LenUtf8(c))
      case None => One(None, 1)
  }

  /** A tagged key as `Encode` would read it back: a `Ctrl` chord that has a control byte becomes the key
      that byte decodes as. */
  function Canonical(key: Key): Key {
    if !key.mods.ctrl then key
    else match ControlOf(key.code)
      case None => key
      case Some(b) => match DecodeOne([b]).key
        case None => key
        case Some(k) => k.(mods := k.mods.Union(key.mods.Carried()))
  }

  function Finish(key: Key, mods: Mods): Key {
    var k := key.(mods := key.mods.Union(mods));
    if mods == NONE then k else Canonical(k)
  }

  function Decode(b: seq<Byte>): seq<Key>
    decreases |b|
  {
    if b == [] then []
    else
      var Prefix(mods, r) := Gather(b, NONE);
      if r == [] then []
      else
        var One(key, w) := DecodeOne(r);
        (if key.Some? then [Finish(key.value, mods)] else []) + Decode(Drop(r, w))
  }

  // ----- What one key reads back as

  /** The key the bytes of `code` (with or without `Ctrl`) decode as. */
  function PlainNormal(code: Code, ctrl: bool): Key {
    if !code.Char? then Plain(code)
    else
      var b := if ctrl then (match ControlByte(code.c) case Some(x) => x case None => code.c) else code.c;
      if b == 0x1B then Plain(Esc)
      else if b == 13 then Plain(Enter)
      else if b == 9 then Plain(Tab)
      else if b == 0x7F then Plain(Backspace)
      else if 1 <= b <= 0x1A then Ctrl(b + 96)
      else if b == 0 then Ctrl(32)
      else if 0x1C <= b <= 0x1F then Ctrl(b - 0x1C + 52)
      else Plain(code)
  }

  /** A key as the codec normalises it: no Shift, one spelling for each control chord. */
  function NormalForm(key: Key): Key {
    Finish(PlainNormal(key.code, key.mods.ctrl && ControlOf(key.code).Some?), Tagged(key))
  }

  lemma {:induction false} DecodeOnePlain(code: Code, ctrl: bool, rest: seq<Byte>)
    requires PlainBytes(code, ctrl).Some?
    ensures var b := PlainBytes(code, ctrl).value;
            b != [] && !AtModTag(b + rest) && DecodeOne(b + rest) == One(Some(PlainNormal(code, ctrl)), |b|)
  {
    if code.Char? && !ctrl {
      Utf8RoundTrip(code.c, rest);
    }
  }

  lemma {:induction false} Halved(low: nat, rest: nat)
    requires low <= 1
    ensures (low + 2 * rest) % 2 == low && (low + 2 * rest) / 2 == rest
  {
  }

  lemma {:induction false} FiveBits(b: nat, ctrl: nat, alt: nat, sup: nat, hyper: nat, meta: nat)
    requires ctrl <= 1 && alt <= 1 && sup <= 1 && hyper <= 1 && meta <= 1
    requires b == ctrl + 2 * alt + 4 * sup + 8 * hyper + 16 * meta
    ensures b % 2 == ctrl && b / 2 % 2 == alt && b / 2 / 2 % 2 == sup
            && b / 2 / 2 / 2 % 2 == hyper && b / 2 / 2 / 2 / 2 % 2 == meta
  {
    Halved(meta, 0);
    Halved(hyper, meta);
    Halved(sup, hyper + 2 * meta);
    Halved(alt, sup + 2 * hyper + 4 * meta);
    Halved(ctrl, alt + 2 * sup + 4 * hyper + 8 * meta);
  }

  lemma {:induction false} BitsRoundTrip(m: Mods)
    requires !m.shift
    ensures BitsMods(ModBits(m)) == m
  {
    FiveBits(ModBits(m), Bit(m.ctrl), Bit(m.alt), Bit(m.sup), Bit(m.hyper), Bit(m.meta));
  }

  lemma {:induction false} GatherEncoded(key: Key, rest: seq<Byte>)
    requires Encode(key).Some?
    ensures Gather(Encode(key).value + rest, NONE) == Prefix(Tagged(key), Untagged(key).value + rest)
  {
    var bytes := Untagged(key).value;
    DecodeOnePlain(key.code, key.mods.ctrl && ControlOf(key.code).Some?, rest);
    if Tagged(key) != NONE {
      var b := Encode(key).value + rest;
      assert b == [TAG, MOD_TAG, ModBits(Tagged(key))] + (bytes + rest);
      assert Drop(b, 3) == bytes + rest;
      BitsRoundTrip(Tagged(key));
    }
  }

  /** One key's bytes decode to one key, its normal form, whatever bytes follow: nothing merges. */
  lemma {:induction false} DecodeFirst(key: Key, rest: seq<Byte>)
    requires Encode(key).Some?
    ensures Decode(Encode(key).value + rest) == [NormalForm(key)] + Decode(rest)
  {
    var b, bytes := Encode(key).value + rest, Untagged(key).value;
    GatherEncoded(key, rest);
    DecodeOnePlain(key.code, key.mods.ctrl && ControlOf(key.code).Some?, rest);
    assert Drop(bytes + rest, |bytes|) == rest;
    assert b != [];
  }

  function Bytes(key: Key): seq<Byte> {
    if Encode(key).Some? then Encode(key).value else []
  }

  /** The one key that a key's bytes decode as, or none when it has no bytes. */
  function Normalised(key: Key): seq<Key> {
    if Encode(key).Some? then [NormalForm(key)] else []
  }

  function Concat<T>(f: Key -> seq<T>, keys: seq<Key>): seq<T> {
    if keys == [] then [] else f(keys[0]) + Concat(f, keys[1..])
  }

  function EncodeAll(keys: seq<Key>): seq<Byte> {
    Concat(Bytes, keys)
  }

  /** The keys of a list that have bytes, each in normal form. */
  function NormalForms(keys: seq<Key>): seq<Key> {
    Concat(Normalised, keys)
  }

  lemma {:induction false} DecodeNext(key: Key, rest: seq<Byte>)
    ensures Decode(Bytes(key) + rest) == Normalised(key) + Decode(rest)
  {
    if Encode(key).Some? {
      DecodeFirst(key, rest);
    } else {
      assert Bytes(key) + rest == rest;
    }
  }

  /** A list decodes piece by piece when each piece does, whatever follows it. */
  lemma {:induction false} PiecewiseDecode(
      enc: Key -> seq<Byte>, norm: Key -> seq<Key>, dec: seq<Byte> -> seq<Key>, keys: seq<Key>, rest: seq<Byte>)
    requires forall k, r :: dec(enc(k) + r) == norm(k) + dec(r)
    ensures dec(Concat(enc, keys) + rest) == Concat(norm, keys) + dec(rest)
  {
    if keys == [] {
      assert Concat(enc, keys) + rest == rest;
    } else {
      var tail := keys[1..];
      PiecewiseDecode(enc, norm, dec, tail, rest);
      Reassociate(enc(keys[0]), Concat(enc, tail), rest);
      Reassociate(norm(keys[0]), Concat(norm, tail), dec(rest));
    }
  }

  lemma {:induction false} Reassociate<T>(x: seq<T>, y: seq<T>, z: seq<T>)
    ensures (x + y) + z == x + (y + z)
  {
  }

  /** A whole list decodes key by key, to the normal forms of its encodable keys in order. */
  lemma {:induction false} DecodeOfEncodeAll(keys: seq<Key>, rest: seq<Byte>)
    ensures Decode(EncodeAll(keys) + rest) == NormalForms(keys) + Decode(rest)
  {
    forall k, r
      ensures Decode(Bytes(k) + r) == Normalised(k) + Decode(r)
    {
      DecodeNext(k, r);
    }
    PiecewiseDecode(Bytes, Normalised, Decode, keys, rest);
  }

  // ----- Normal keys

  predicate Printable(c: Scalar) {
    32 <= c && c != 0x7F
  }

  /** The control chords a C0 byte decodes as. */
  predicate IsControlChord(c: Scalar) {
    c == 32 || 52 <= c <= 55 || (97 <= c <= 122 && c != 105 && c != 109)
  }

  /** The keys that survive a round trip, told from the key alone. */
  predicate IsNormal(key: Key) {
    && !key.mods.shift && !key.code.Other?
    && match key.code
       case Char(c) =>
         Printable(c)
         && (key.mods.ctrl && ControlByte(c).Some? ==> IsControlChord(c))
       case _ => true
  }

  function With(key: Key, mods: Mods): Key {
    key.(mods := key.mods.Union(mods))
  }

  lemma {:induction false} ControlChordIsCanonical(c: Scalar, mods: Mods)
    requires IsControlChord(c) && !mods.shift
    ensures Canonical(With(Ctrl(c), mods)) == With(Ctrl(c), mods)
  {
  }

  lemma {:induction false} PlainNormalKinds(code: Code, ctrl: bool)
    ensures var k := PlainNormal(code, ctrl);
            || (k.code.Char? && IsControlChord(k.code.c) && k == Ctrl(k.code.c))
            || (!k.code.Char? && k == Plain(k.code) && (k.code.Other? ==> code.Other?))
            || (code.Char? && k == Plain(code) && (!ctrl ==> Printable(code.c))
                && (ctrl ==> ControlByte(code.c).None?))
  {
  }

  /** Tagging never changes more than the modifiers: a normalised key just takes the tagged ones on. */
  lemma {:induction false} FinishIsUnion(key: Key)
    requires Encode(key).Some?
    ensures NormalForm(key)
         == With(PlainNormal(key.code, key.mods.ctrl && ControlOf(key.code).Some?), Tagged(key))
  {
    var ctrl := key.mods.ctrl && ControlOf(key.code).Some?;
    var k := PlainNormal(key.code, ctrl);
    PlainNormalKinds(key.code, ctrl);
    if k.code.Char? && k == Ctrl(k.code.c) {
      ControlChordIsCanonical(k.code.c, Tagged(key));
    }
  }

  lemma {:induction false} NormalFormIsNormal(key: Key)
    requires Encode(key).Some?
    ensures IsNormal(NormalForm(key))
  {
    FinishIsUnion(key);
    PlainNormalKinds(key.code, key.mods.ctrl && ControlOf(key.code).Some?);
  }

  lemma {:induction false} NormalCodeIsKept(key: Key)
    requires IsNormal(key)
    ensures var ctrl := key.mods.ctrl && ControlOf(key.code).Some?;
            PlainNormal(key.code, ctrl) == Key(key.code, if ctrl then CTRL else NONE)
  {
  }

  lemma {:induction false} NormalHasBytes(key: Key)
    requires IsNormal(key)
    ensures Encode(key).Some?
  {
  }

  lemma {:induction false} NormalKeepsItself(key: Key)
    requires IsNormal(key)
    ensures Encode(key).Some? && NormalForm(key) == key
  {
    NormalHasBytes(key);
    FinishIsUnion(key);
    NormalCodeIsKept(key);
  }

  /** A key decodes back to itself exactly when it is normal: Shift, a raw control character and a second
      spelling of a control chord are what a register cannot keep. */
  lemma {:induction false} RoundTripIffNormal(key: Key)
    requires Encode(key).Some?
    ensures Decode(Encode(key).value) == [key] <==> IsNormal(key)
  {
    DecodeFirst(key, []);
    assert Encode(key).value + [] == Encode(key).value;
    assert Decode(Encode(key).value) == [NormalForm(key)];
    assert [NormalForm(key)] == [key] <==> [NormalForm(key)][0] == key;
    NormalFormIsNormal(key);
    if IsNormal(key) {
      NormalKeepsItself(key);
    }
  }

  // ----- The bytes a terminal sends

  /** A `Ctrl` chord's byte is its character's low five bits, over letters and `@ [ \ ] ^ _`; `Space` and `2`
      are `@`'s, `4` to `7` those of `\ ] ^ _`; no other character has one. */
  lemma {:induction false} ControlBytesAreC0(c: Scalar)
    ensures ControlByte(c)
         == if 'A' as int <= c <= 'Z' as int || 'a' as int <= c <= 'z' as int || 64 <= c <= 95 then Some(c % 32)
            else if c == ' ' as int || c == '2' as int then Some(0)
            else if '4' as int <= c <= '7' as int then Some(c - '4' as int + 0x1C)
            else None
  {
  }

  /** `<C-\>` to `<C-_>` read back as `<C-4>` to `<C-7>`, `<C-@>` as `<C-Space>`, `<C-[>` as `<Esc>`. */
  lemma {:induction false} C0ChordsReadBack(c: Scalar)
    requires 64 <= c <= 95 && !IsLetter(c)
    ensures NormalForm(Ctrl(c))
         == if c == '@' as int then Ctrl(' ' as int) else if c == '[' as int then Plain(Esc) else Ctrl(c - 40)
  {
  }

  /** The tag of a navigation key: the final letter of the terminal's own sequence for it, or its number. */
  lemma {:induction false} TagLetters()
    ensures SpecialTag(Up) == Some('A' as int) && SpecialTag(Down) == Some('B' as int)
    ensures SpecialTag(Right) == Some('C' as int) && SpecialTag(Left) == Some('D' as int)
    ensures SpecialTag(Home) == Some('H' as int) && SpecialTag(End) == Some('F' as int)
    ensures SpecialTag(PageUp) == Some('5' as int) && SpecialTag(PageDown) == Some('6' as int)
    ensures SpecialTag(Delete) == Some('3' as int) && SpecialTag(Insert) == Some('2' as int)
    ensures SpecialTag(BackTab) == Some('Z' as int)
  {
  }

  /** A key without modifiers: its own byte or bytes, `0x80` and its tag, or `0x80 f` and its number. */
  lemma {:induction false} PlainKeyBytes(code: Code, n: Byte, c: Scalar)
    requires 0 <= c < 0x80
    ensures SpecialTag(code).Some? ==> Encode(Plain(code)) == Some([0x80, SpecialTag(code).value])
    ensures Encode(Plain(F(n))) == Some([0x80, 'f' as int, n])
    ensures Encode(Plain(Char(c))) == Some([c])
    ensures Encode(Plain(Enter)) == Some(['\r' as int]) && Encode(Plain(Tab)) == Some(['\t' as int])
    ensures Encode(Plain(Esc)) == Some([0x1B]) && Encode(Plain(Backspace)) == Some([0x7F])
  {
  }

  /** The bits of the modifiers, `Ctrl` lowest, and the prefix they ride in. */
  lemma {:induction false} ModifierBits(code: Code, mods: Mods)
    requires !mods.ctrl && mods.Carried() != NONE && Encode(Plain(code)).Some?
    ensures ModBits(CTRL) == 1 && ModBits(NONE.(alt := true)) == 2 && ModBits(NONE.(sup := true)) == 4
    ensures ModBits(NONE.(hyper := true)) == 8 && ModBits(NONE.(meta := true)) == 16
    ensures Encode(Key(code, mods)) == Some([0x80, 'm' as int, ModBits(mods.Carried())] + Encode(Plain(code)).value)
  {
    assert Tagged(Key(code, mods)) == mods.Carried() && Tagged(Plain(code)) == NONE;
  }

  // ----- Every register decodes to normal keys

  lemma {:induction false} DecodeOneKinds(b: seq<Byte>)
    requires b != [] && DecodeOne(b).key.Some?
    ensures var k := DecodeOne(b).key.value;
            || (k.code.Char? && IsControlChord(k.code.c) && k == Ctrl(k.code.c))
            || (!k.code.Char? && k == Plain(k.code) && !k.code.Other?)
            || (k.code.Char? && k == Plain(k.code) && Printable(k.code.c))
  {
  }

  lemma {:induction false} ControlByteNormal(c: Scalar, mods: Mods)
    requires ControlByte(c).Some? && !mods.shift
    ensures IsNormal(Canonical(Key(Char(c), mods.(ctrl := true))))
  {
    DecodeOneKinds([ControlByte(c).value]);
  }

  lemma {:induction false} FinishedIsNormal(b: seq<Byte>, mods: Mods)
    requires b != [] && DecodeOne(b).key.Some? && !mods.shift
    ensures IsNormal(Finish(DecodeOne(b).key.value, mods))
  {
    var k := DecodeOne(b).key.value;
    DecodeOneKinds(b);
    if k.code.Char? && With(k, mods).mods.ctrl && ControlByte(k.code.c).Some? {
      ControlByteNormal(k.code.c, With(k, mods).mods);
    }
  }

  lemma {:induction false} GatherNoShift(b: seq<Byte>, mods: Mods)
    requires !mods.shift
    ensures !Gather(b, mods).mods.shift
    decreases |b|
  {
    if AtModTag(b) {
      GatherNoShift(Drop(b, 3), mods.Union(BitsMods(if |b| > 2 then b[2] else 0)));
    }
  }

  lemma {:induction false} DecodedKeysNormal(b: seq<Byte>)
    ensures forall k :: k in Decode(b) ==> IsNormal(k)
    decreases |b|
  {
    if b != [] {
      var Prefix(mods, r) := Gather(b, NONE);
      GatherNoShift(b, NONE);
      if r != [] {
        var One(key, w) := DecodeOne(r);
        DecodedKeysNormal(Drop(r, w));
        if key.Some? {
          FinishedIsNormal(r, mods);
        }
      }
    }
  }

  lemma {:induction false} NormalFormsOfNormal(keys: seq<Key>)
    requires forall k :: k in keys ==> IsNormal(k)
    ensures NormalForms(keys) == keys
  {
    if keys != [] {
      NormalKeepsItself(keys[0]);
      NormalFormsOfNormal(keys[1..]);
    }
  }

  /** Any bytes at all, however malformed: once decoded, storing and decoding again changes nothing. */
  lemma {:induction false} DecodeIsFixpoint(b: seq<Byte>)
    ensures Decode(EncodeAll(Decode(b))) == Decode(b)
  {
    DecodedKeysNormal(b);
    NormalFormsOfNormal(Decode(b));
    DecodeOfEncodeAll(Decode(b), []);
    assert EncodeAll(Decode(b)) + [] == EncodeAll(Decode(b));
    assert Decode([]) == [];
  }

  // ----- An `<Esc>` appended to a register

  /** Every prefix of the run has its modifier byte. */
  predicate GatherWhole(b: seq<Byte>)
    decreases |b|
  {
    AtModTag(b) ==> |b| >= 3 && GatherWhole(b[3..])
  }

  /** The bytes stop between keys: not inside a tag, and with no modifier waiting for its key. */
  predicate EndsClean(b: seq<Byte>)
    decreases |b|
  {
    b == []
    || var Prefix(mods, r) := Gather(b, NONE);
       GatherWhole(b)
       && if r == [] then mods == NONE
          else DecodeOne(r).width <= |r| && EndsClean(r[DecodeOne(r).width..])
  }

  const ESC: seq<Byte> := [ESC_BYTE]

  lemma {:induction false} GatherBeforeEsc(b: seq<Byte>, mods: Mods)
    ensures GatherWhole(b) ==> Gather(b + ESC, mods) == Prefix(Gather(b, mods).mods, Gather(b, mods).rest + ESC)
    ensures !GatherWhole(b) ==> Gather(b + ESC, mods).rest == []
    decreases |b|
  {
    if AtModTag(b) && |b| >= 3 {
      assert (b + ESC)[3..] == b[3..] + ESC;
      GatherBeforeEsc(b[3..], mods.Union(BitsMods(b[2])));
    }
  }

  lemma {:induction false} DecodeOneBeforeEsc(r: seq<Byte>)
    requires r != []
    ensures DecodeOne(r).width <= |r| ==> DecodeOne(r + ESC) == DecodeOne(r)
    ensures DecodeOne(r).width > |r| ==>
              r[0] == TAG && DecodeOne(r).key.None? && DecodeOne(r + ESC).width == |r| + 1
              && DecodeOne(r + ESC).key != Some(Plain(Esc))
  {
  }

  lemma {:induction false} EscTakesMods(mods: Mods)
    requires !mods.shift
    ensures Finish(Plain(Esc), mods) == Plain(Esc) <==> mods == NONE
  {
  }

  lemma {:induction false} FunctionKeyIsNotEsc(b: seq<Byte>, mods: Mods)
    requires b != [] && b[0] == TAG && DecodeOne(b).key.Some?
    ensures Finish(DecodeOne(b).key.value, mods).code != Esc
  {
  }

  /** What an `<Esc>` byte after `b` comes to: an `<Esc>` after a whole key, one with the modifiers that were
      waiting, what it makes of a cut tag, or nothing. */
  function LateKey(b: seq<Byte>): (late: seq<Key>)
    ensures |late| <= 1
    decreases |b|
  {
    if b == [] then [Plain(Esc)]
    else if !GatherWhole(b) then []
    else
      var Prefix(mods, r) := Gather(b, NONE);
      if r == [] then [Finish(Plain(Esc), mods)]
      else
        var w := DecodeOne(r).width;
        if w <= |r| then LateKey(r[w..]) else Head(DecodeOne(r + ESC).key, mods)
  }

  /** The byte after a whole first key is the byte after the rest. */
  lemma {:induction false} LateAfterKey(b: seq<Byte>, mods: Mods, r: seq<Byte>, key: Option<Key>, w: nat)
    requires b != [] && GatherWhole(b) && Gather(b, NONE) == Prefix(mods, r) && r != []
    requires DecodeOne(r) == One(key, w) && w <= |r|
    requires Decode(r[w..] + ESC) == Decode(r[w..]) + LateKey(r[w..])
    ensures Decode(b + ESC) == Decode(b) + LateKey(r[w..])
  {
    GatherBeforeEsc(b, NONE);
    DecodeOneBeforeEsc(r);
    DecodeStep(b, mods, r, key, w);
    DecodeStep(b + ESC, mods, r + ESC, key, w);
    assert Drop(r + ESC, w) == r[w..] + ESC;
    Reassociate(Head(key, mods), Decode(r[w..]), LateKey(r[w..]));
  }

  lemma {:induction false} LateInsideTag(b: seq<Byte>, mods: Mods, r: seq<Byte>)
    requires b != [] && GatherWhole(b) && Gather(b, NONE) == Prefix(mods, r) && r != []
    requires DecodeOne(r).width > |r|
    ensures Decode(b) == [] && Decode(b + ESC) == Head(DecodeOne(r + ESC).key, mods)
  {
    GatherBeforeEsc(b, NONE);
    DecodeOneBeforeEsc(r);
    var late := DecodeOne(r + ESC);
    DecodeStep(b, mods, r, None, DecodeOne(r).width);
    DecodeStep(b + ESC, mods, r + ESC, late.key, late.width);
    assert Decode([]) == [];
  }

  lemma {:induction false} CutPrefixIsAll(b: seq<Byte>, mods: Mods)
    requires !GatherWhole(b)
    ensures Gather(b, mods).rest == []
    decreases |b|
  {
    if |b| >= 3 {
      CutPrefixIsAll(b[3..], mods.Union(BitsMods(b[2])));
    }
  }

  lemma {:induction false} EscAlone()
    ensures Decode(ESC) == [Plain(Esc)]
  {
    assert Gather(ESC, NONE) == Prefix(NONE, ESC);
    assert Drop(ESC, 1) == [];
  }

  /** Whatever the bytes, an `<Esc>` byte after them changes none of their keys and adds that one, if any. */
  lemma {:induction false} EscAddsLateKey(b: seq<Byte>)
    ensures Decode(b + ESC) == Decode(b) + LateKey(b)
    decreases |b|
  {
    if b == [] {
      assert b + ESC == ESC;
      EscAlone();
    } else {
      var Prefix(mods, r) := Gather(b, NONE);
      GatherBeforeEsc(b, NONE);
      if !GatherWhole(b) {
        CutPrefixIsAll(b, NONE);
        DecodeNothing(b, mods);
        DecodeNothing(b + ESC, Gather(b + ESC, NONE).mods);
      } else if r == [] {
        DecodeNothing(b, mods);
        assert r + ESC == ESC && Drop(ESC, 1) == [];
        DecodeStep(b + ESC, mods, ESC, Some(Plain(Esc)), 1);
      } else if DecodeOne(r).width <= |r| {
        EscAddsLateKey(r[DecodeOne(r).width..]);
        LateAfterKey(b, mods, r, DecodeOne(r).key, DecodeOne(r).width);
      } else {
        LateInsideTag(b, mods, r);
      }
    }
  }

  lemma {:induction false} LateIsEscIff(b: seq<Byte>)
    ensures LateKey(b) == [Plain(Esc)] <==> EndsClean(b)
    decreases |b|
  {
    if b != [] && GatherWhole(b) {
      var Prefix(mods, r) := Gather(b, NONE);
      GatherNoShift(b, NONE);
      if r == [] {
        EscTakesMods(mods);
        assert [Finish(Plain(Esc), mods)][0] == Finish(Plain(Esc), mods);
      } else if DecodeOne(r).width <= |r| {
        LateIsEscIff(r[DecodeOne(r).width..]);
      } else {
        DecodeOneBeforeEsc(r);
        if DecodeOne(r + ESC).key.Some? {
          FunctionKeyIsNotEsc(r + ESC, mods);
          assert LateKey(b)[0].code != Esc;
        }
      }
    }
  }

  /** The bytes stop right after a bare tag byte, or after a modifier tag without its bits. */
  predicate Swallows(b: seq<Byte>)
    decreases |b|
  {
    && b != []
    && (!GatherWhole(b)
        || var r := Gather(b, NONE).rest;
           r != [] && if DecodeOne(r).width <= |r| then Swallows(r[DecodeOne(r).width..]) else |r| == 1)
  }

  lemma {:induction false} CutTag(r: seq<Byte>)
    requires r != [] && DecodeOne(r).width > |r|
    ensures DecodeOne(r + ESC).key.None? <==> |r| == 1
  {
  }

  lemma {:induction false} NoLateKeyIff(b: seq<Byte>)
    ensures LateKey(b) == [] <==> Swallows(b)
    decreases |b|
  {
    if b != [] && GatherWhole(b) {
      var r := Gather(b, NONE).rest;
      if r != [] && DecodeOne(r).width <= |r| {
        NoLateKeyIff(r[DecodeOne(r).width..]);
      } else if r != [] {
        CutTag(r);
      }
    }
  }

  lemma {:induction false} SuffixIs<T>(x: seq<T>, y: seq<T>, z: seq<T>)
    ensures x + y == x + z <==> y == z
  {
    if x + y == x + z {
      assert y == (x + y)[|x|..] && z == (x + z)[|x|..];
    }
  }

  /** An `<Esc>` appended to a register is read as an `<Esc>` exactly when the register stops between keys. */
  lemma {:induction false} EscReadIffEndsClean(b: seq<Byte>)
    ensures Decode(b + ESC) == Decode(b) + [Plain(Esc)] <==> EndsClean(b)
  {
    EscAddsLateKey(b);
    LateIsEscIff(b);
    SuffixIs(Decode(b), LateKey(b), [Plain(Esc)]);
  }

  /** It is lost exactly when the register stops after a bare tag byte or inside a modifier prefix; a
      register cut anywhere else makes some other single key of it. */
  lemma {:induction false} EscLostIffSwallowed(b: seq<Byte>)
    ensures Decode(b + ESC) == Decode(b) <==> Swallows(b)
    ensures !EndsClean(b) && !Swallows(b) ==>
              exists k :: k != Plain(Esc) && Decode(b + ESC) == Decode(b) + [k]
  {
    EscAddsLateKey(b);
    LateIsEscIff(b);
    NoLateKeyIff(b);
    SuffixIs(Decode(b), LateKey(b), []);
    assert Decode(b) + [] == Decode(b);
    if LateKey(b) != [] {
      assert LateKey(b) == [LateKey(b)[0]];
    }
  }

  /** A register that ends in a bare `0x80` loses the `<Esc>` altogether. */
  lemma TruncatedTagSwallowsEsc()
    ensures Decode([TAG] + ESC) == [] && Decode([TAG]) == []
  {
    assert Drop([TAG] + ESC, 2) == [] && Drop([TAG], 2) == [];
  }

  // ----- The walks

  function Head(key: Option<Key>, mods: Mods): seq<Key> {
    if key.Some? then [Finish(key.value, mods)] else []
  }

  lemma {:induction false} DecodeStep(b: seq<Byte>, mods: Mods, r: seq<Byte>, key: Option<Key>, w: nat)
    requires b != [] && Gather(b, NONE) == Prefix(mods, r) && r != [] && DecodeOne(r) == One(key, w)
    ensures Decode(b) == Head(key, mods) + Decode(Drop(r, w))
  {
  }

  lemma {:induction false} DecodeNothing(b: seq<Byte>, mods: Mods)
    requires Gather(b, NONE) == Prefix(mods, [])
    ensures Decode(b) == []
  {
  }

  lemma {:induction false} Regroup(out: seq<Key>, head: seq<Key>, rest: seq<Key>)
    ensures out + (head + rest) == (out + head) + rest
  {
  }

  lemma {:induction false} DropDrop(bytes: seq<Byte>, i: nat, n: nat)
    ensures Drop(Drop(bytes, i), n) == Drop(bytes, i + n)
  {
  }

  /** The run of modifier prefixes that `b` starts with, walked without recursion. */
  method GatherRun(b: seq<Byte>) returns (mods: Mods, j: nat)
    ensures Gather(b, NONE) == Prefix(mods, Drop(b, j))
  {
    mods, j := NONE, 0;
    while AtModTag(Drop(b, j))
      invariant Gather(b, NONE) == Gather(Drop(b, j), mods)
      decreases |b| - j
    {
      DropDrop(b, j, 3);
      var bits := if j + 2 < |b| then b[j + 2] else 0;
      mods := mods.Union(BitsMods(bits));
      j := j + 3;
    }
  }

  lemma {:induction false} FrontAfter(b: seq<Byte>, mods: Mods, j: nat)
    requires b != [] && Gather(b, NONE) == Prefix(mods, Drop(b, j))
    ensures Drop(b, j) == [] ==> Decode(b) == [] + Decode(Drop(b, |b|))
    ensures Drop(b, j) != [] ==>
              var One(key, w) := DecodeOne(Drop(b, j)); Decode(b) == Head(key, mods) + Decode(Drop(b, j + w))
  {
    if Drop(b, j) == [] {
      DecodeNothing(b, mods);
    } else {
      FrontKey(b, mods, j, DecodeOne(Drop(b, j)).key, DecodeOne(Drop(b, j)).width);
    }
  }

  lemma {:induction false} FrontKey(b: seq<Byte>, mods: Mods, j: nat, key: Option<Key>, w: nat)
    requires b != [] && Gather(b, NONE) == Prefix(mods, Drop(b, j)) && Drop(b, j) != []
    requires DecodeOne(Drop(b, j)) == One(key, w)
    ensures Decode(b) == Head(key, mods) + Decode(Drop(b, j + w))
  {
    DecodeStep(b, mods, Drop(b, j), key, w);
    DropDrop(b, j, w);
  }

  lemma {:induction false} WalkStep(
      dec: seq<Byte> -> seq<Key>, out: seq<Key>, bytes: seq<Byte>, i: nat, keys: seq<Key>, taken: nat)
    requires i <= |bytes| && dec(bytes[i..]) == keys + dec(Drop(bytes[i..], taken))
    ensures out + dec(Drop(bytes, i)) == (out + keys) + dec(Drop(bytes, i + taken))
  {
    DropDrop(bytes, i, taken);
    Regroup(out, keys, dec(Drop(bytes, i + taken)));
  }

  /** `dec` is `Decode`, kept abstract so that the walk is checked against the piecewise law alone. */
  ghost predicate Decodes(dec: seq<Byte> -> seq<Key>) {
    dec([]) == [] && forall b {:trigger DecodesOn(dec, b)} :: DecodesOn(dec, b)
  }

  ghost predicate DecodesOn(dec: seq<Byte> -> seq<Key>, b: seq<Byte>) {
    dec(b) == Decode(b)
  }

  lemma {:induction false} FrontBy(b: seq<Byte>, mods: Mods, j: nat, dec: seq<Byte> -> seq<Key>)
    requires b != [] && Decodes(dec) && Gather(b, NONE) == Prefix(mods, Drop(b, j))
    ensures Drop(b, j) == [] ==> dec(b) == [] + dec(Drop(b, |b|))
    ensures Drop(b, j) != [] ==>
              var One(key, w) := DecodeOne(Drop(b, j)); dec(b) == Head(key, mods) + dec(Drop(b, j + w))
  {
    FrontAfter(b, mods, j);
    assert DecodesOn(dec, b) && DecodesOn(dec, Drop(b, |b|));
    if Drop(b, j) != [] {
      assert DecodesOn(dec, Drop(b, j + DecodeOne(Drop(b, j)).width));
    }
  }

  /** The key `b` starts with after its prefixes, and the bytes taken. */
  method DecodeFront(b: seq<Byte>, ghost dec: seq<Byte> -> seq<Key>) returns (keys: seq<Key>, taken: nat)
    requires b != [] && Decodes(dec)
    ensures taken >= 1 && dec(b) == keys + dec(Drop(b, taken))
  {
    var mods, j := GatherRun(b);
    FrontBy(b, mods, j, dec);
    var r := Drop(b, j);
    if r == [] {
      return [], |b|;
    }
    var one := DecodeOne(r);
    return Head(one.key, mods), j + one.width;
  }

  method WalkBytes(bytes: seq<Byte>, ghost dec: seq<Byte> -> seq<Key>) returns (out: seq<Key>)
    requires Decodes(dec)
    ensures out == dec(bytes)
  {
    out := [];
    var i: nat := 0;
    assert Drop(bytes, 0) == bytes;
    while i < |bytes|
      invariant out + dec(Drop(bytes, i)) == dec(bytes)
    {
      var keys, taken := DecodeFront(bytes[i..], dec);
      WalkStep(dec, out, bytes, i, keys, taken);
      out := out + keys;
      i := i + taken;
    }
    assert Drop(bytes, i) == [] && out + [] == out;
  }

  /** The index walk over any register, however malformed, gives its decoding. */
  method DecodeBytes(bytes: seq<Byte>) returns (out: seq<Key>)
    ensures out == Decode(bytes)
  {
    out := WalkBytes(bytes, Decode);
  }

  method EncodeKeys(keys: seq<Key>) returns (out: seq<Byte>)
    ensures out == EncodeAll(keys)
  {
    out := [];
    for i := 0 to |keys|
      invariant out + EncodeAll(keys[i..]) == EncodeAll(keys)
    {
      EncodeAllStep(out, keys, i);
      out := out + Bytes(keys[i]);
    }
  }

  lemma {:induction false} EncodeAllStep(out: seq<Byte>, keys: seq<Key>, i: nat)
    requires i < |keys|
    ensures out + EncodeAll(keys[i..]) == (out + Bytes(keys[i])) + EncodeAll(keys[i + 1..])
  {
    assert keys[i..][1..] == keys[i + 1..];
  }
}
