/** `encodeURIComponent` and `decodeURIComponent`. Encoding leaves the
    unreserved characters alone and writes every other character as the
    UTF-8 bytes of its code point, each as `%` and two upper-case hex
    digits. Decoding reads such escapes back, one UTF-8 sequence at a time,
    and throws, modelled as `None`, on a `%` without two hex digits and on
    a sequence that is not well-formed UTF-8 (a stray continuation byte, a
    missing one, an overlong form, a surrogate, a code point past
    U+10FFFF). Characters are Unicode scalar values. */
module Uri {
  import opened Wrappers

  /** The characters `encodeURIComponent` leaves alone. */
  predicate Unreserved(c: char)
  {
    ('A' <= c <= 'Z') || ('a' <= c <= 'z') || ('0' <= c <= '9')
    || c == '-' || c == '_' || c == '.' || c == '!' || c == '~'
    || c == '*' || c == '\'' || c == '(' || c == ')'
  }

  function HexUpper(n: nat): (r: char)
    requires n < 16
    ensures ('0' <= r <= '9') || ('A' <= r <= 'F')
  {
    if n < 10 then ('0' as int + n) as char else ('A' as int + n - 10) as char
  }

  function HexValue(c: char): Option<nat>
  {
    if '0' <= c <= '9' then Some(c as int - '0' as int)
    else if 'a' <= c <= 'f' then Some(c as int - 'a' as int + 10)
    else if 'A' <= c <= 'F' then Some(c as int - 'A' as int + 10)
    else None
  }

  predicate IsByte(b: nat)
  {
    b < 256
  }

  /** A continuation byte of UTF-8: `10xxxxxx`. */
  function Continuation(bits: nat): nat
  {
    0x80 + bits % 64
  }

  /** The UTF-8 bytes of a code point. */
  function Utf8(c: char): (r: seq<nat>)
    ensures 1 <= |r| <= 4
    ensures forall i :: 0 <= i < |r| ==> IsByte(r[i])
  {
    var n := c as int;
    if n < 0x80 then [n]
    else if n < 0x800 then [0xC0 + n / 64, Continuation(n)]
    else if n < 0x10000 then [0xE0 + n / 4096, Continuation(n / 64), Continuation(n)]
    else [0xF0 + n / 0x40000, Continuation(n / 4096), Continuation(n / 64), Continuation(n)]
  }

  /** One byte as `%` and two upper-case hex digits. */
  function Escape(b: nat): (r: string)
    requires IsByte(b)
    ensures |r| == 3 && r[0] == '%'
  {
    ['%', HexUpper(b / 16), HexUpper(b % 16)]
  }

  function Escapes(bs: seq<nat>): (r: string)
    requires forall i :: 0 <= i < |bs| ==> IsByte(bs[i])
    ensures |r| == 3 * |bs|
  {
    if bs == [] then "" else Escape(bs[0]) + Escapes(bs[1..])
  }

  function EncodeChar(c: char): (r: string)
    ensures Unreserved(c) ==> r == [c]
    ensures !Unreserved(c) ==> 3 <= |r| <= 12 && r[0] == '%'
  {
    if Unreserved(c) then [c] else Escapes(Utf8(c))
  }

  /** `encodeURIComponent(s)`. */
  function Encode(s: string): string
  {
    if s == "" then "" else EncodeChar(s[0]) + Encode(s[1..])
  }

  /** The byte a `%XY` escape at the head of `s` stands for. */
  function ReadEscape(s: string): (r: Option<nat>)
    ensures r.Some? ==> |s| >= 3 && IsByte(r.value)
  {
    if |s| >= 3 && s[0] == '%' && HexValue(s[1]).Some? && HexValue(s[2]).Some?
    then Some(HexValue(s[1]).value * 16 + HexValue(s[2]).value)
    else None
  }

  /** How many bytes the UTF-8 sequence that byte `b` starts has; 0 when `b`
      cannot start one (a continuation byte, 0xC0 and 0xC1, which only
      start overlong forms, and 0xF5 onwards). */
  function SequenceLength(b: nat): (r: nat)
    ensures r <= 4
  {
    if b < 0x80 then 1
    else if 0xC2 <= b <= 0xDF then 2
    else if 0xE0 <= b <= 0xEF then 3
    else if 0xF0 <= b <= 0xF4 then 4
    else 0
  }

  /** The payload bits of a lead byte of a sequence of `len` bytes. */
  function LeadBits(b: nat, len: nat): nat
  {
    if len == 2 then b % 32 else if len == 3 then b % 16 else b % 8
  }

  /** Reads `k` escaped continuation bytes, each adding its six low bits to
      `acc`; the value read and the text after the escapes. */
  function Continuations(s: string, k: nat, acc: nat): (r: Option<(nat, string)>)
    ensures r.Some? ==> 3 * k <= |s| && r.value.1 == s[3 * k..]
    decreases k
  {
    if k == 0 then Some((acc, s))
    else
      match ReadEscape(s)
      case None => None
      case Some(b) =>
        if b < 0x80 || 0xBF < b then None
        else Continuations(s[3..], k - 1, acc * 64 + b % 64)
  }

  /** A code point that a `len`-byte sequence may encode: not an overlong
      form, not a surrogate, not past U+10FFFF. */
  predicate ValidScalar(n: nat, len: nat)
  {
    && (len == 2 ==> 0x80 <= n) && (len == 3 ==> 0x800 <= n) && (len == 4 ==> 0x10000 <= n)
    && n < 0x110000 && !(0xD800 <= n < 0xE000)
  }

  /** One escaped UTF-8 sequence at the head of `s`: its character and the
      text after it. */
  function DecodeSequence(s: string): (r: Option<(char, string)>)
    ensures r.Some? ==> |r.value.1| < |s|
  {
    match ReadEscape(s)
    case None => None
    case Some(b) =>
      var len := SequenceLength(b);
      if len == 0 then None
      else if len == 1 then Some((b as char, s[3..]))
      else
        match Continuations(s[3..], len - 1, LeadBits(b, len))
        case None => None
        case Some((n, rest)) => if ValidScalar(n, len) then Some((n as char, rest)) else None
  }

  /** `decodeURIComponent(s)`; `None` where it throws. */
  function Decode(s: string): (r: Option<string>)
    decreases |s|
  {
    if s == "" then Some("")
    else if s[0] != '%' then
      match Decode(s[1..])
      case None => None
      case Some(t) => Some([s[0]] + t)
    else
      match DecodeSequence(s)
      case None => None
      case Some((c, rest)) =>
        match Decode(rest)
        case None => None
        case Some(t) => Some([c] + t)
  }

  /** An escape holds only `%` and hex digits. */
  lemma {:induction false} EscapesChars(bs: seq<nat>)
    requires forall i :: 0 <= i < |bs| ==> IsByte(bs[i])
    ensures forall x :: x in Escapes(bs) ==> x == '%' || ('0' <= x <= '9') || ('A' <= x <= 'F')
  {
    if bs != [] {
      EscapesChars(bs[1..]);
      assert Escapes(bs) == Escape(bs[0]) + Escapes(bs[1..]);
    }
  }

  /** An encoding never contains a reserved ASCII character other than `%`:
      in particular no `=`, `;` or space, the delimiters of a cookie header. */
  lemma {:induction false} EncodeAvoids(s: string, c: char)
    requires !Unreserved(c) && c as int < 128 && c != '%'
    ensures c !in Encode(s)
  {
    if s != "" {
      EncodeAvoids(s[1..], c);
      if !Unreserved(s[0]) {
        EscapesChars(Utf8(s[0]));
      }
      assert Encode(s) == EncodeChar(s[0]) + Encode(s[1..]);
    }
  }

  /** Reading back one escaped byte. */
  lemma EscapeRead(b: nat, rest: string)
    requires IsByte(b)
    ensures ReadEscape(Escape(b) + rest) == Some(b)
    ensures (Escape(b) + rest)[3..] == rest
  {
    assert HexValue(HexUpper(b / 16)) == Some(b / 16);
    assert HexValue(HexUpper(b % 16)) == Some(b % 16);
  }

  /** The payload of continuation bytes folded into `acc`, six bits each. */
  function Accumulate(acc: nat, cs: seq<nat>): nat
    decreases |cs|
  {
    if cs == [] then acc else Accumulate(acc * 64 + cs[0] % 64, cs[1..])
  }

  /** Reading one escaped continuation byte. */
  lemma ContinuationStep(b: nat, tail: string, k: nat, acc: nat)
    requires 0x80 <= b <= 0xBF && k >= 1
    ensures Continuations(Escape(b) + tail, k, acc) == Continuations(tail, k - 1, acc * 64 + b % 64)
  {
    EscapeRead(b, tail);
  }

  /** Reading back escaped continuation bytes. */
  lemma {:induction false} ContinuationsRead(cs: seq<nat>, rest: string, acc: nat)
    requires forall i :: 0 <= i < |cs| ==> 0x80 <= cs[i] <= 0xBF
    ensures Continuations(Escapes(cs) + rest, |cs|, acc) == Some((Accumulate(acc, cs), rest))
  {
    if cs != [] {
      var tail := Escapes(cs[1..]) + rest;
      assert Escapes(cs) + rest == Escape(cs[0]) + tail;
      ContinuationStep(cs[0], tail, |cs|, acc);
      ContinuationsRead(cs[1..], rest, acc * 64 + cs[0] % 64);
    }
  }

  /** A continuation byte keeps the six low bits it is given. */
  lemma ContinuationBits(x: nat)
    ensures 0x80 <= Continuation(x) <= 0xBF && Continuation(x) % 64 == x % 64
  {
  }

  /** Dividing by 64 twice, or three times, is dividing by 4096, or by
      0x40000. */
  lemma DivDiv(n: nat)
    ensures n / 4096 == n / 64 / 64 && n / 0x40000 == n / 4096 / 64
  {
  }

  /** A two-byte sequence carries the code point. */
  lemma Utf8Two(c: char)
    requires 0x80 <= c as int < 0x800
    ensures var bs := Utf8(c);
      && |bs| == 2 && SequenceLength(bs[0]) == 2 && 0x80 <= bs[1] <= 0xBF
      && Accumulate(LeadBits(bs[0], 2), bs[1..]) == c as int
  {
    var n := c as int;
    ContinuationBits(n);
    assert LeadBits(0xC0 + n / 64, 2) == n / 64;
    assert Accumulate(n / 64, [Continuation(n)]) == Accumulate(n / 64 * 64 + n % 64, []);
  }

  /** A three-byte sequence carries the code point. */
  lemma Utf8Three(c: char)
    requires 0x800 <= c as int < 0x10000
    ensures var bs := Utf8(c);
      && |bs| == 3 && SequenceLength(bs[0]) == 3 && 0x80 <= bs[1] <= 0xBF && 0x80 <= bs[2] <= 0xBF
      && Accumulate(LeadBits(bs[0], 3), bs[1..]) == c as int
  {
    var n := c as int;
    ContinuationBits(n);
    ContinuationBits(n / 64);
    DivDiv(n);
    var m := n / 64;
    assert LeadBits(0xE0 + n / 4096, 3) == m / 64;
    var cs := [Continuation(m), Continuation(n)];
    assert cs[1..] == [Continuation(n)];
    assert Accumulate(m / 64, cs) == Accumulate(m / 64 * 64 + m % 64, [Continuation(n)]);
    assert Accumulate(m, [Continuation(n)]) == Accumulate(m * 64 + n % 64, []);
  }

  /** A four-byte sequence carries the code point. */
  lemma Utf8Four(c: char)
    requires 0x10000 <= c as int
    ensures var bs := Utf8(c);
      && |bs| == 4 && SequenceLength(bs[0]) == 4
      && 0x80 <= bs[1] <= 0xBF && 0x80 <= bs[2] <= 0xBF && 0x80 <= bs[3] <= 0xBF
      && Accumulate(LeadBits(bs[0], 4), bs[1..]) == c as int
  {
    var n := c as int;
    assert n < 0x110000;
    ContinuationBits(n);
    ContinuationBits(n / 64);
    ContinuationBits(n / 4096);
    DivDiv(n);
    var m, q := n / 64, n / 4096;
    assert q == m / 64;
    assert LeadBits(0xF0 + n / 0x40000, 4) == q / 64;
    var cs := [Continuation(q), Continuation(m), Continuation(n)];
    assert cs[1..] == [Continuation(m), Continuation(n)];
    assert [Continuation(m), Continuation(n)][1..] == [Continuation(n)];
    assert Accumulate(q / 64, cs) == Accumulate(q / 64 * 64 + q % 64, [Continuation(m), Continuation(n)]);
    assert Accumulate(q, [Continuation(m), Continuation(n)]) == Accumulate(q * 64 + m % 64, [Continuation(n)]);
    assert q * 64 + m % 64 == m;
    assert Accumulate(m, [Continuation(n)]) == Accumulate(m * 64 + n % 64, []);
  }

  /** The bytes of a multi-byte sequence: its lead and its continuations. */
  lemma Utf8Parts(c: char)
    requires c as int >= 0x80
    ensures var bs := Utf8(c);
      && SequenceLength(bs[0]) == |bs| >= 2
      && (forall i :: 1 <= i < |bs| ==> 0x80 <= bs[i] <= 0xBF)
      && Accumulate(LeadBits(bs[0], |bs|), bs[1..]) == c as int
  {
    if c as int < 0x800 {
      Utf8Two(c);
    } else if c as int < 0x10000 {
      Utf8Three(c);
    } else {
      Utf8Four(c);
    }
  }

  /** Reading back a character escaped as one byte. */
  lemma DecodeAsciiEscape(c: char, rest: string)
    requires c as int < 0x80
    ensures DecodeSequence(Escapes(Utf8(c)) + rest) == Some((c, rest))
  {
    var b := c as int;
    assert Utf8(c) == [b];
    assert Escapes([b]) == Escape(b) + Escapes([]);
    assert Escapes(Utf8(c)) + rest == Escape(b) + rest;
    EscapeRead(b, rest);
  }

  /** Reading back a character escaped as two to four bytes. */
  lemma DecodeMultiByte(c: char, rest: string)
    requires c as int >= 0x80
    ensures DecodeSequence(Escapes(Utf8(c)) + rest) == Some((c, rest))
  {
    var bs := Utf8(c);
    var tail := Escapes(bs[1..]) + rest;
    assert Escapes(bs) + rest == Escape(bs[0]) + tail;
    EscapeRead(bs[0], tail);
    Utf8Parts(c);
    ContinuationsRead(bs[1..], rest, LeadBits(bs[0], |bs|));
    assert ValidScalar(c as int, |bs|);
  }

  /** Reading back one encoded character. */
  lemma DecodeChar(c: char, rest: string, t: string)
    requires Decode(rest) == Some(t)
    ensures Decode(EncodeChar(c) + rest) == Some([c] + t)
  {
    var s := EncodeChar(c) + rest;
    if Unreserved(c) {
      assert s[1..] == rest;
    } else {
      if c as int < 0x80 {
        DecodeAsciiEscape(c, rest);
      } else {
        DecodeMultiByte(c, rest);
      }
      assert DecodeSequence(s) == Some((c, rest));
    }
  }

  /** `decodeURIComponent(encodeURIComponent(s))` is `s`. */
  lemma {:induction false} EncodeDecode(s: string)
    ensures Decode(Encode(s)) == Some(s)
  {
    if s != "" {
      EncodeDecode(s[1..]);
      DecodeChar(s[0], Encode(s[1..]), s[1..]);
      assert [s[0]] + s[1..] == s;
    }
  }

  /** Escapes of well-formed UTF-8 decode to their character: `%C3%A9` is
      "é", U+00E9. */
  lemma DecodesTwoByteSequence()
    ensures Decode("%C3%A9") == Some([0xE9 as char])
  {
    assert ReadEscape("%C3%A9") == Some(0xC3);
    assert "%C3%A9"[3..] == "%A9";
    assert ReadEscape("%A9") == Some(0xA9);
    assert "%A9"[3..] == "";
    assert Continuations("%A9", 1, 3) == Some((0xE9, ""));
    assert DecodeSequence("%C3%A9") == Some((0xE9 as char, ""));
    assert Decode("") == Some("");
    assert Decode("%C3%A9") == Some([0xE9 as char] + "");
    assert [0xE9 as char] + "" == [0xE9 as char];
  }

  /** A lead byte without its continuation, and an overlong form of "/",
      make `decodeURIComponent` throw. */
  lemma MalformedSequencesThrow()
    ensures Decode("%C3") == None
    ensures Decode("%C0%AF") == None
  {
    assert ReadEscape("%C3") == Some(0xC3);
    assert ReadEscape("%C0%AF") == Some(0xC0);
  }
}
