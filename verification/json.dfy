/** `JSON.stringify` and `JSON.parse` restricted to what the project stores
    in its `technologies` column: an array of strings.

    The encoder writes what `JSON.stringify` writes for such an array (no
    spaces, the short escapes for quote, backslash and the five named
    control characters, `\u00xx` with lower-case hex for the other control
    characters). The decoder accepts arrays of strings with any JSON
    whitespace between tokens and every JSON string escape, a surrogate
    pair of escapes read as the one character it stands for; a text that is
    not such an array, or that escapes a lone surrogate, is reported as
    `None`. */
module Json {
  import opened Wrappers
  import Text

  predicate IsJsonSpace(c: char)
  {
    c == ' ' || c == '\t' || c == '\n' || c == '\r'
  }

  function SkipSpace(s: string): (r: string)
    ensures |r| <= |s| && r == s[|s| - |r|..]
    ensures r == "" || !IsJsonSpace(r[0])
  {
    if s != "" && IsJsonSpace(s[0]) then SkipSpace(s[1..]) else s
  }

  /** One hex digit, lower case, for a value below 16. */
  function HexDigit(n: nat): char
    requires n < 16
  {
    if n < 10 then ('0' as int + n) as char else ('a' as int + n - 10) as char
  }

  /** The value of a hex digit of either case. */
  function HexValue(c: char): Option<nat>
  {
    if '0' <= c <= '9' then Some(c as int - '0' as int)
    else if 'a' <= c <= 'f' then Some(c as int - 'a' as int + 10)
    else if 'A' <= c <= 'F' then Some(c as int - 'A' as int + 10)
    else None
  }

  lemma HexRoundTrip(n: nat)
    requires n < 16
    ensures HexValue(HexDigit(n)) == Some(n)
  {
  }

  /** How `JSON.stringify` writes one character inside a string literal. */
  function EscapeChar(c: char): string
  {
    if c == '"' then "\\\""
    else if c == '\\' then "\\\\"
    else if c == '\U{0008}' then "\\b"
    else if c == '\U{000C}' then "\\f"
    else if c == '\n' then "\\n"
    else if c == '\r' then "\\r"
    else if c == '\t' then "\\t"
    else if c < ' ' then "\\u00" + [HexDigit(c as int / 16), HexDigit(c as int % 16)]
    else [c]
  }

  function Escape(s: string): string
  {
    if s == "" then "" else EscapeChar(s[0]) + Escape(s[1..])
  }

  function Quote(s: string): string
  {
    "\"" + Escape(s) + "\""
  }

  function QuoteAll(xs: seq<string>): (r: seq<string>)
    ensures |r| == |xs|
    ensures forall i :: 0 <= i < |xs| ==> r[i] == Quote(xs[i])
  {
    if xs == [] then [] else [Quote(xs[0])] + QuoteAll(xs[1..])
  }

  /** `JSON.stringify(xs)` for an array of strings. */
  function Encode(xs: seq<string>): string
  {
    "[" + Text.Join(QuoteAll(xs), ",") + "]"
  }

  /** The value of an escape sequence, given the text after its backslash,
      with the rest of the text after the sequence. */
  function Unescape(s: string): (r: Option<(char, string)>)
    ensures r.Some? ==> |r.value.1| < |s|
  {
    if s == "" then None
    else if s[0] == '"' then Some(('"', s[1..]))
    else if s[0] == '\\' then Some(('\\', s[1..]))
    else if s[0] == '/' then Some(('/', s[1..]))
    else if s[0] == 'b' then Some(('\U{0008}', s[1..]))
    else if s[0] == 'f' then Some(('\U{000C}', s[1..]))
    else if s[0] == 'n' then Some(('\n', s[1..]))
    else if s[0] == 'r' then Some(('\r', s[1..]))
    else if s[0] == 't' then Some(('\t', s[1..]))
    else if s[0] == 'u' then CodeUnit(s[1..])
    else None
  }

  /** The value of a `\u` escape, given the text after its `u`: a code
      unit outside the surrogates is that character, and a high surrogate
      must be followed by the escape of a low one. */
  function CodeUnit(s: string): (r: Option<(char, string)>)
    ensures r.Some? ==> |r.value.1| <= |s| - 4
  {
    if |s| < 4 then None
    else
      match Hex4(s[..4])
      case None => None
      case Some(code) =>
        if 0xD800 <= code < 0xDC00 then LowSurrogate(code, s[4..])
        // A lone low surrogate has no character of its own here.
        else if 0xDC00 <= code < 0xE000 then None
        else Some((code as char, s[4..]))
  }

  /** The value of four hex digits. */
  function Hex4(s: string): (r: Option<nat>)
    requires |s| == 4
    ensures r.Some? ==> r.value < 0x10000
  {
    var d := [HexValue(s[0]), HexValue(s[1]), HexValue(s[2]), HexValue(s[3])];
    if d[0].Some? && d[1].Some? && d[2].Some? && d[3].Some? then
      HexBound(s[0]); HexBound(s[1]); HexBound(s[2]); HexBound(s[3]);
      Some(((d[0].value * 16 + d[1].value) * 16 + d[2].value) * 16 + d[3].value)
    else None
  }

  lemma HexBound(c: char)
    ensures HexValue(c).Some? ==> HexValue(c).value < 16
  {
  }

  /** The character a UTF-16 surrogate pair stands for, given the high
      half and the text after its escape, which must be a `\u` escape of
      the low half; a high surrogate without one has no character here. */
  function LowSurrogate(hi: nat, t: string): (r: Option<(char, string)>)
    requires 0xD800 <= hi < 0xDC00
    ensures r.Some? ==> 0x10000 <= r.value.0 as int && |r.value.1| == |t| - 6
  {
    if |t| >= 6 && t[0] == '\\' && t[1] == 'u' then
      match Hex4(t[2..6])
      case Some(lo) =>
        if 0xDC00 <= lo < 0xE000 then
          Some(((0x10000 + (hi - 0xD800) * 0x400 + (lo - 0xDC00)) as char, t[6..]))
        else None
      case None => None
    else None
  }

  /** Four lower-case hex digits for a value below 0x10000. */
  function Hex4Text(n: nat): (r: string)
    requires n < 0x10000
    ensures |r| == 4
  {
    [HexDigit(n / 16 / 16 / 16), HexDigit(n / 16 / 16 % 16), HexDigit(n / 16 % 16), HexDigit(n % 16)]
  }

  lemma Hex4Read(n: nat)
    requires n < 0x10000
    ensures Hex4(Hex4Text(n)) == Some(n)
  {
    var q1 := n / 16;
    var q2 := q1 / 16;
    var a, b, c, d := q2 / 16, q2 % 16, q1 % 16, n % 16;
    HexRoundTrip(a);
    HexRoundTrip(b);
    HexRoundTrip(c);
    HexRoundTrip(d);
    assert q2 == a * 16 + b;
    assert q1 == q2 * 16 + c;
    assert n == q1 * 16 + d;
  }

  /** The `\u` escapes of a UTF-16 surrogate pair, without the first
      backslash. */
  function PairText(hi: nat, lo: nat): string
    requires hi < 0x10000 && lo < 0x10000
  {
    "u" + Hex4Text(hi) + "\\u" + Hex4Text(lo)
  }

  /** The high surrogate of a character outside the Basic Multilingual
      Plane. */
  function HighHalf(c: char): (r: nat)
    requires c as int >= 0x10000
    ensures 0xD800 <= r < 0xDC00
  {
    0xD800 + (c as int - 0x10000) / 0x400
  }

  /** The low surrogate of a character outside the Basic Multilingual
      Plane. */
  function LowHalf(c: char): (r: nat)
    requires c as int >= 0x10000
    ensures 0xDC00 <= r < 0xE000
  {
    0xDC00 + (c as int - 0x10000) % 0x400
  }

  /** The surrogate pair of a character outside the Basic Multilingual
      Plane, written as escapes. */
  function PairEscape(c: char): (r: string)
    requires c as int >= 0x10000
  {
    PairText(HighHalf(c), LowHalf(c))
  }

  /** Every character outside the Basic Multilingual Plane, written as the
      escapes of its surrogate pair, reads back as that one character. */
  lemma PairEscapeRead(c: char, rest: string)
    requires c as int >= 0x10000
    ensures Unescape(PairEscape(c) + rest) == Some((c, rest))
  {
    PairHalves(c);
    PairRead(c, HighHalf(c), LowHalf(c), rest);
  }

  /** The two halves of a surrogate pair combine back to the character. */
  lemma PairHalves(c: char)
    requires c as int >= 0x10000
    ensures c as int == 0x10000 + (HighHalf(c) - 0xD800) * 0x400 + (LowHalf(c) - 0xDC00)
  {
    SplitTen(c as int - 0x10000);
  }

  lemma SplitTen(v: int)
    requires v >= 0
    ensures v / 0x400 * 0x400 + v % 0x400 == v
  {
  }

  /** Reading a high and a low surrogate escape. */
  lemma PairRead(c: char, hi: nat, lo: nat, rest: string)
    requires 0xD800 <= hi < 0xDC00 && 0xDC00 <= lo < 0xE000
    requires c as int == 0x10000 + (hi - 0xD800) * 0x400 + (lo - 0xDC00)
    ensures Unescape(PairText(hi, lo) + rest) == Some((c, rest))
  {
    var t := "\\u" + Hex4Text(lo) + rest;
    var s := "u" + Hex4Text(hi) + t;
    assert PairText(hi, lo) + rest == s;
    assert s[1..][..4] == Hex4Text(hi);
    assert s[1..][4..] == t;
    assert t[2..6] == Hex4Text(lo);
    assert t[6..] == rest;
    Hex4Read(hi);
    Hex4Read(lo);
  }

  /** One character of a string literal that is not its closing quote. */
  function StringChar(s: string): (r: Option<(char, string)>)
    requires s != ""
    ensures r.Some? ==> |r.value.1| < |s|
  {
    if s[0] == '\\' then Unescape(s[1..])
    else if s[0] < ' ' || s[0] == '"' then None
    else Some((s[0], s[1..]))
  }

  /** The body of a string literal up to and including its closing quote:
      the decoded string and the text after the quote. */
  function StringBody(s: string): (r: Option<(string, string)>)
    ensures r.Some? ==> |r.value.1| < |s|
    decreases |s|
  {
    if s == "" then None
    else if s[0] == '"' then Some(("", s[1..]))
    else
      match StringChar(s)
      case None => None
      case Some((c, t)) =>
        match StringBody(t)
        case None => None
        case Some((x, u)) => Some(([c] + x, u))
  }

  /** The items of a non-empty array, starting at the first item's opening
      quote, through the closing bracket. */
  function Items(s: string): (r: Option<(seq<string>, string)>)
    ensures r.Some? ==> |r.value.1| < |s|
    decreases |s|
  {
    if s == "" || s[0] != '"' then None
    else
      match StringBody(s[1..])
      case None => None
      case Some((x, t)) =>
        var u := SkipSpace(t);
        if u != "" && u[0] == ']' then Some(([x], u[1..]))
        else if u != "" && u[0] == ',' then
          match Items(SkipSpace(u[1..]))
          case None => None
          case Some((xs, v)) => Some(([x] + xs, v))
        else None
  }

  /** `JSON.parse(s)` when `s` is an array of strings; `None` where
      `JSON.parse` would throw or would give some other value. */
  function Decode(s: string): Option<seq<string>>
  {
    var t := SkipSpace(s);
    if t == "" || t[0] != '[' then None
    else
      var u := SkipSpace(t[1..]);
      if u != "" && u[0] == ']' then
        (if SkipSpace(u[1..]) == "" then Some([]) else None)
      else
        match Items(u)
        case None => None
        case Some((xs, v)) => if SkipSpace(v) == "" then Some(xs) else None
  }

  /** Reading back one escaped character. */
  lemma EscapeCharRead(c: char, rest: string)
    ensures EscapeChar(c) + rest != "" && (EscapeChar(c) + rest)[0] != '"'
    ensures StringChar(EscapeChar(c) + rest) == Some((c, rest))
  {
    var s := EscapeChar(c) + rest;
    if c < ' ' && c != '\U{0008}' && c != '\U{000C}' && c != '\n' && c != '\r' && c != '\t' {
      var hi, lo := c as int / 16, c as int % 16;
      HexRoundTrip(hi);
      HexRoundTrip(lo);
      assert s[1..] == "u00" + [HexDigit(hi), HexDigit(lo)] + rest;
      var u := s[1..][1..];
      assert u[..4] == "00" + [HexDigit(hi), HexDigit(lo)];
      assert u[4..] == rest;
    } else if c == '"' || c == '\\' || c == '\U{0008}' || c == '\U{000C}' || c == '\n' || c == '\r' || c == '\t' {
      assert s[1..][1..] == rest;
    } else {
      assert s[1..] == rest;
    }
  }

  /** Reading back an escaped string and its closing quote. */
  lemma {:induction false} StringBodyRead(x: string, rest: string)
    ensures StringBody(Escape(x) + "\"" + rest) == Some((x, rest))
    decreases |x|
  {
    var s := Escape(x) + "\"" + rest;
    if x == "" {
      assert s == "\"" + rest;
    } else {
      var tail := Escape(x[1..]) + "\"" + rest;
      assert s == EscapeChar(x[0]) + tail;
      EscapeCharRead(x[0], tail);
      StringBodyRead(x[1..], rest);
      assert [x[0]] + x[1..] == x;
    }
  }

  lemma SkipNoSpace(s: string)
    requires s != "" && !IsJsonSpace(s[0])
    ensures SkipSpace(s) == s
  {
  }

  /** A quoted item and what follows it, seen by `Items`: the item and the
      text after its closing quote, spaces skipped. */
  lemma ItemHead(x: string, u: string)
    requires u != "" && !IsJsonSpace(u[0])
    ensures Quote(x) + u != "" && (Quote(x) + u)[0] == '"'
    ensures StringBody((Quote(x) + u)[1..]) == Some((x, u))
    ensures SkipSpace(u) == u
  {
    var s := Quote(x) + u;
    assert s == "\"" + (Escape(x) + "\"" + u);
    assert s[1..] == Escape(x) + "\"" + u;
    StringBodyRead(x, u);
    SkipNoSpace(u);
  }

  /** The first item of an array, followed by its closing bracket. */
  lemma ItemsLast(x: string, rest: string)
    ensures Items(Quote(x) + "]" + rest) == Some(([x], rest))
  {
    var u := "]" + rest;
    var s := Quote(x) + u;
    assert Quote(x) + "]" + rest == s;
    assert u[1..] == rest;
    ItemHead(x, u);
    ItemsEnd(s, x, u);
  }

  /** The last step of `Items`: an item and the closing bracket. */
  lemma ItemsEnd(s: string, x: string, u: string)
    requires s != "" && s[0] == '"' && StringBody(s[1..]) == Some((x, u))
    requires u != "" && u[0] == ']' && SkipSpace(u) == u
    ensures Items(s) == Some(([x], u[1..]))
  {
  }

  /** The first item of an array, followed by a comma and more items. */
  lemma ItemsNext(x: string, after: string, ys: seq<string>, rest: string)
    requires after != "" && after[0] == '"'
    requires Items(after) == Some((ys, rest))
    ensures Items(Quote(x) + "," + after) == Some(([x] + ys, rest))
  {
    var u := "," + after;
    ItemHead(x, u);
    assert u[1..] == after;
    SkipNoSpace(after);
    ItemsCons(Quote(x) + u, x, u, ys, rest);
    assert Quote(x) + "," + after == Quote(x) + u;
  }

  /** One step of `Items`: an item, a comma, and the items after it. */
  lemma ItemsCons(s: string, x: string, u: string, ys: seq<string>, rest: string)
    requires s != "" && s[0] == '"' && StringBody(s[1..]) == Some((x, u))
    requires u != "" && u[0] == ',' && SkipSpace(u) == u
    requires Items(SkipSpace(u[1..])) == Some((ys, rest))
    ensures Items(s) == Some(([x] + ys, rest))
  {
  }

  /** Reading back the items of an encoded non-empty array. */
  lemma {:induction false} ItemsRead(xs: seq<string>, rest: string)
    requires |xs| >= 1
    ensures Items(Text.Join(QuoteAll(xs), ",") + "]" + rest) == Some((xs, rest))
    decreases |xs|
  {
    if |xs| == 1 {
      ItemsReadOne(xs, rest);
    } else {
      ItemsRead(xs[1..], rest);
      ItemsReadStep(xs, rest);
    }
  }

  lemma ItemsReadOne(xs: seq<string>, rest: string)
    requires |xs| == 1
    ensures Items(Text.Join(QuoteAll(xs), ",") + "]" + rest) == Some((xs, rest))
  {
    assert Text.Join(QuoteAll(xs), ",") == Quote(xs[0]);
    ItemsLast(xs[0], rest);
    assert xs == [xs[0]];
  }

  lemma ItemsReadStep(xs: seq<string>, rest: string)
    requires |xs| >= 2
    requires Items(Text.Join(QuoteAll(xs[1..]), ",") + "]" + rest) == Some((xs[1..], rest))
    ensures Items(Text.Join(QuoteAll(xs), ",") + "]" + rest) == Some((xs, rest))
  {
    var after := Text.Join(QuoteAll(xs[1..]), ",") + "]" + rest;
    StepText(xs, rest);
    ItemsNext(xs[0], after, xs[1..], rest);
    HeadTail(xs);
  }

  /** The text of two or more items: the first item, a comma, then the
      encoding of the others, which starts with a quote. */
  lemma StepText(xs: seq<string>, rest: string)
    requires |xs| >= 2
    ensures var after := Text.Join(QuoteAll(xs[1..]), ",") + "]" + rest;
      && after != "" && after[0] == '"'
      && Text.Join(QuoteAll(xs), ",") + "]" + rest == Quote(xs[0]) + "," + after
  {
    AfterStart(xs[1..], rest);
    JoinQuoted(xs, rest);
  }

  lemma HeadTail<T>(xs: seq<T>)
    requires |xs| >= 1
    ensures [xs[0]] + xs[1..] == xs
  {
  }

  /** The encoding of one or more items, with anything after it, starts
      with a quote. */
  lemma AfterStart(ys: seq<string>, rest: string)
    requires |ys| >= 1
    ensures var after := Text.Join(QuoteAll(ys), ",") + "]" + rest;
      after != "" && after[0] == '"'
  {
    var j := Text.Join(QuoteAll(ys), ",");
    EncodedStart(ys);
    assert (j + "]" + rest)[0] == j[0];
  }

  /** The encoding of two or more items is the first item, a comma, and the
      encoding of the others. */
  lemma JoinQuoted(xs: seq<string>, rest: string)
    requires |xs| >= 2
    ensures Text.Join(QuoteAll(xs), ",") + "]" + rest
         == Quote(xs[0]) + "," + (Text.Join(QuoteAll(xs[1..]), ",") + "]" + rest)
  {
    var q := QuoteAll(xs);
    var tq := QuoteAll(xs[1..]);
    assert q == [q[0]] + tq;
    Text.JoinCons(q[0], tq, ",");
    Regroup(q[0], Text.Join(tq, ","), rest);
  }

  lemma Regroup(a: string, j: string, rest: string)
    ensures a + "," + j + "]" + rest == a + "," + (j + "]" + rest)
  {
  }

  /** An encoded non-empty list of items starts with a quote. */
  lemma EncodedStart(xs: seq<string>)
    requires |xs| >= 1
    ensures Text.Join(QuoteAll(xs), ",") != ""
    ensures Text.Join(QuoteAll(xs), ",")[0] == '"'
  {
    var q := QuoteAll(xs);
    assert q[0] == "\"" + Escape(xs[0]) + "\"";
    JoinFirst(q, ",");
  }

  /** `JSON.parse(JSON.stringify(xs))` gives `xs` back for every array of
      strings, in order. */
  lemma EncodeDecode(xs: seq<string>)
    ensures Decode(Encode(xs)) == Some(xs)
  {
    if xs == [] {
      EncodeDecodeEmpty();
    } else {
      EncodeDecodeItems(xs);
    }
  }

  lemma EncodeDecodeEmpty()
    ensures Decode(Encode([])) == Some([])
  {
    EncodeEmpty();
    DecodeEmpty();
  }

  lemma EncodeEmpty()
    ensures Encode([]) == "[]"
  {
  }

  lemma EncodeDecodeItems(xs: seq<string>)
    requires xs != []
    ensures Decode(Encode(xs)) == Some(xs)
  {
    var body := Text.Join(QuoteAll(xs), ",") + "]";
    assert Encode(xs) == "[" + body;
    ItemsRead(xs, "");
    assert body + "" == body;
    EncodedStart(xs);
    assert body[0] == '"';
    DecodeItems(body, xs);
  }

  lemma DecodeEmpty()
    ensures Decode("[]") == Some([])
  {
    var s := "[]";
    SkipNoSpace(s);
    assert s[1..] == "]";
    SkipNoSpace(s[1..]);
    assert s[1..][1..] == "";
  }

  /** An opening bracket directly followed by items that run to the end. */
  lemma DecodeItems(body: string, xs: seq<string>)
    requires body != "" && body[0] == '"'
    requires Items(body) == Some((xs, ""))
    ensures Decode("[" + body) == Some(xs)
  {
    var s := "[" + body;
    assert s[1..] == body;
    SkipNoSpace(s);
    SkipNoSpace(body);
  }

  /** A join of non-empty pieces starts with the first piece's first character. */
  lemma JoinFirst(ps: seq<string>, sep: string)
    requires |ps| >= 1 && ps[0] != ""
    ensures Text.Join(ps, sep) != "" && Text.Join(ps, sep)[0] == ps[0][0]
  {
  }
}
