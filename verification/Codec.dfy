/** Base64 text for blobs (section 4 of RFC 4648) and percent-encoded file names (section 2 of RFC 3986). */
module Codec {
  import opened Common

  type byte = x: int | 0 <= x < 256

  // ------------------------------------------------------------------------- base64

  function Symbol(n: int): char
    requires 0 <= n < 64
  {
    if n < 26 then 'A' + n as char
    else if n < 52 then 'a' + (n - 26) as char
    else if n < 62 then '0' + (n - 52) as char
    else if n == 62 then '+' else '/'
  }

  function SymbolValue(c: char): (n: int)
    ensures -1 <= n < 64
  {
    if 'A' <= c <= 'Z' then (c - 'A') as int
    else if 'a' <= c <= 'z' then (c - 'a') as int + 26
    else if '0' <= c <= '9' then (c - '0') as int + 52
    else if c == '+' then 62
    else if c == '/' then 63
    else -1
  }

  /** The alphabet: capital letters, small letters, digits, plus and slash, each run in its order. */
  lemma AlphabetIs()
    ensures Symbol(0) == 'A' && Symbol(25) == 'Z' && Symbol(26) == 'a' && Symbol(51) == 'z'
    ensures Symbol(52) == '0' && Symbol(61) == '9' && Symbol(62) == '+' && Symbol(63) == '/'
    ensures forall n | 0 <= n < 61 && n != 25 && n != 51 :: Symbol(n + 1) as int == Symbol(n) as int + 1
  {
  }

  lemma SymbolRoundTrip(n: int)
    requires 0 <= n < 64
    ensures SymbolValue(Symbol(n)) == n && Symbol(n) != '='
  {
  }

  function Encode64(b: seq<byte>): string {
    if |b| == 0 then []
    else if |b| == 1 then [Symbol(b[0] / 4), Symbol(b[0] % 4 * 16), '=', '=']
    else if |b| == 2 then
      [Symbol(b[0] / 4), Symbol(b[0] % 4 * 16 + b[1] / 16), Symbol(b[1] % 16 * 4), '=']
    else
      [Symbol(b[0] / 4), Symbol(b[0] % 4 * 16 + b[1] / 16), Symbol(b[1] % 16 * 4 + b[2] / 64), Symbol(b[2] % 64)]
      + Encode64(b[3..])
  }

  /** The place of a symbol in the alphabet; padding counts as zero bits. */
  ghost predicate Digit(c: char, n: int) {
    (c == '=' && n == 0) || (0 <= n < 64 && c == Symbol(n))
  }

  /** Four symbols spell the number that three bytes spell, where missing bytes are zero. */
  ghost predicate SpellsNumber(s: string, n0: int, n1: int, n2: int, n3: int, x: int, y: int, z: int) {
    && |s| >= 4 && Digit(s[0], n0) && Digit(s[1], n1) && Digit(s[2], n2) && Digit(s[3], n3)
    && n0 * 262144 + n1 * 4096 + n2 * 64 + n3 == x * 65536 + y * 256 + z
  }

  /** The encoding, three bytes at a time: the symbols spell the bytes' number, with '=' for each missing byte. */
  lemma EncodesGroups(b: seq<byte>) returns (n0: int, n1: int, n2: int, n3: int)
    requires b != []
    ensures var y, z := if |b| > 1 then b[1] else 0, if |b| > 2 then b[2] else 0;
            SpellsNumber(Encode64(b), n0, n1, n2, n3, b[0], y, z)
    ensures Encode64(b)[0] != '=' && Encode64(b)[1] != '='
    ensures Encode64(b)[2] == '=' <==> |b| == 1
    ensures Encode64(b)[3] == '=' <==> |b| <= 2
    ensures Encode64(b)[4..] == if |b| > 3 then Encode64(b[3..]) else ""
  {
    var x: int := b[0];
    var y: int := if |b| > 1 then b[1] else 0;
    var z: int := if |b| > 2 then b[2] else 0;
    n0, n1, n2, n3 := x / 4, x % 4 * 16 + y / 16, y % 16 * 4 + z / 64, z % 64;
    SymbolRoundTrip(n0);
    SymbolRoundTrip(n1);
    SymbolRoundTrip(n2);
    SymbolRoundTrip(n3);
    if |b| > 2 {
      EncodeUnfolds(b);
      assert |b| == 3 ==> b[3..] == [];
    }
  }

  /** The three bytes of four sextets. */
  function Joined(a: int, b: int, c: int, d: int): seq<byte>
    requires 0 <= a < 64 && 0 <= b < 64 && 0 <= c < 64 && 0 <= d < 64
  {
    [a * 4 + b / 16, b % 16 * 16 + c / 4, c % 4 * 64 + d]
  }

  /** Four symbols at a time; padding only in the last group. None stands for a decoding error. */
  function Decode64(s: string): Option<seq<byte>> {
    if |s| == 0 then Some([])
    else if |s| < 4 then None
    else
      var a, b, c, d := SymbolValue(s[0]), SymbolValue(s[1]), SymbolValue(s[2]), SymbolValue(s[3]);
      if a < 0 || b < 0 then None
      else if s[2] == '=' && s[3] == '=' && |s| == 4 then Some([a * 4 + b / 16])
      else if c < 0 then None
      else if s[3] == '=' && |s| == 4 then Some([a * 4 + b / 16, b % 16 * 16 + c / 4])
      else if d < 0 then None
      else match Decode64(s[4..])
        case None => None
        case Some(rest) => Some(Joined(a, b, c, d) + rest)
  }

  /** Splitting two bytes into sextets and joining them again; `y` contributes its high and low nibble. */
  lemma SextetsRejoin(x: byte, y: byte)
    ensures 0 <= x / 4 < 64 && 0 <= x % 4 * 16 + y / 16 < 64
    ensures x / 4 * 4 + (x % 4 * 16 + y / 16) / 16 == x
    ensures (x % 4 * 16 + y / 16) % 16 * 16 + y % 16 == y
  {
    assert (x % 4 * 16 + y / 16) / 16 == x % 4;
    assert (x % 4 * 16 + y / 16) % 16 == y / 16;
  }

  lemma TailRejoins(y: byte, z: byte)
    ensures 0 <= y % 16 * 4 + z / 64 < 64 && 0 <= z % 64 < 64
    ensures (y % 16 * 4 + z / 64) / 4 == y % 16
    ensures (y % 16 * 4 + z / 64) % 4 * 64 + z % 64 == z
  {
    assert (y % 16 * 4 + z / 64) % 4 == z / 64;
  }

  lemma Base64Single(x: byte)
    ensures Decode64([Symbol(x / 4), Symbol(x % 4 * 16), '=', '=']) == Some([x])
  {
    SextetsRejoin(x, 0);
    SymbolRoundTrip(x / 4);
    SymbolRoundTrip(x % 4 * 16);
  }

  lemma Base64Pair(x: byte, y: byte)
    ensures Decode64([Symbol(x / 4), Symbol(x % 4 * 16 + y / 16), Symbol(y % 16 * 4), '=']) == Some([x, y])
  {
    SextetsRejoin(x, y);
    TailRejoins(y, 0);
    SymbolRoundTrip(x / 4);
    SymbolRoundTrip(x % 4 * 16 + y / 16);
    SymbolRoundTrip(y % 16 * 4);
  }

  /** A full group is decoded on its own, whatever follows. */
  lemma DecodeFullGroup(text: string, i: int, j: int, k: int, l: int)
    requires 0 <= i < 64 && 0 <= j < 64 && 0 <= k < 64 && 0 <= l < 64
    requires |text| >= 4 && text[..4] == [Symbol(i), Symbol(j), Symbol(k), Symbol(l)]
    ensures Decode64(text) == match Decode64(text[4..])
              case None => None
              case Some(more) => Some(Joined(i, j, k, l) + more)
  {
    SymbolRoundTrip(i);
    SymbolRoundTrip(j);
    SymbolRoundTrip(k);
    SymbolRoundTrip(l);
    assert text[0] == text[..4][0] && text[1] == text[..4][1] && text[2] == text[..4][2] && text[3] == text[..4][3];
  }

  lemma JoinedGroup(x: byte, y: byte, z: byte)
    ensures 0 <= x / 4 < 64 && 0 <= x % 4 * 16 + y / 16 < 64 && 0 <= y % 16 * 4 + z / 64 < 64 && 0 <= z % 64 < 64
    ensures Joined(x / 4, x % 4 * 16 + y / 16, y % 16 * 4 + z / 64, z % 64) == [x, y, z]
  {
    SextetsRejoin(x, y);
    TailRejoins(y, z);
  }

  lemma Base64Group(x: byte, y: byte, z: byte, text: string)
    requires |text| >= 4
    requires text[..4] == [Symbol(x / 4), Symbol(x % 4 * 16 + y / 16), Symbol(y % 16 * 4 + z / 64), Symbol(z % 64)]
    ensures Decode64(text) == match Decode64(text[4..]) case None => None case Some(more) => Some([x, y, z] + more)
  {
    JoinedGroup(x, y, z);
    DecodeFullGroup(text, x / 4, x % 4 * 16 + y / 16, y % 16 * 4 + z / 64, z % 64);
  }

  /** Decoding an encoded blob gives back its bytes. */
  lemma {:induction false} Base64RoundTrip(b: seq<byte>)
    ensures Decode64(Encode64(b)) == Some(b)
  {
    if |b| == 1 || |b| == 2 {
      Base64Short(b);
    } else if |b| > 2 {
      Base64RoundTrip(b[3..]);
      EncodeUnfolds(b);
      Base64Group(b[0], b[1], b[2], Encode64(b));
      SplitTriple(b);
    }
  }

  lemma SplitTriple(b: seq<byte>)
    requires |b| > 2
    ensures b == [b[0], b[1], b[2]] + b[3..]
  {
  }

  lemma Base64Short(b: seq<byte>)
    requires 1 <= |b| <= 2
    ensures Decode64(Encode64(b)) == Some(b)
  {
    if |b| == 1 {
      Base64Single(b[0]);
      assert b == [b[0]];
    } else {
      Base64Pair(b[0], b[1]);
      assert b == [b[0], b[1]];
    }
  }

  lemma EncodeUnfolds(b: seq<byte>)
    requires |b| > 2
    ensures |Encode64(b)| >= 4 && Encode64(b)[4..] == Encode64(b[3..])
    ensures Encode64(b)[..4] ==
            [Symbol(b[0] / 4), Symbol(b[0] % 4 * 16 + b[1] / 16), Symbol(b[1] % 16 * 4 + b[2] / 64), Symbol(b[2] % 64)]
  {
  }

  // ------------------------------------------------------------------- percent-encoding

  predicate Unreserved(b: byte) {
    || 'A' as int <= b <= 'Z' as int
    || 'a' as int <= b <= 'z' as int
    || '0' as int <= b <= '9' as int
    || b == '-' as int || b == '.' as int || b == '_' as int || b == '~' as int
  }

  function HexDigit(n: int): char
    requires 0 <= n < 16
  {
    if n < 10 then '0' + n as char else 'A' + (n - 10) as char
  }

  function HexValue(c: char): (n: int)
    ensures 0 <= n < 16
  {
    if '0' <= c <= '9' then (c - '0') as int
    else if 'A' <= c <= 'F' then (c - 'A') as int + 10
    else 0
  }

  /** `quote(text, safe="")` on the UTF-8 bytes of the text. */
  function Quote(b: seq<byte>): string {
    if b == [] then []
    else (if Unreserved(b[0]) then [b[0] as char] else ['%', HexDigit(b[0] / 16), HexDigit(b[0] % 16)]) + Quote(b[1..])
  }

  /** Letters, digits and four marks stand for themselves; every other byte is a percent sign and two hex digits. */
  lemma {:induction false} QuotesBytes(b: seq<byte>)
    ensures b == [] ==> Quote(b) == ""
    ensures b != [] ==> Quote(b) == QuotedByte(b[0]) + Quote(b[1..])
  {
    if b != [] {
      HexIsUpper(b[0] / 16);
      HexIsUpper(b[0] % 16);
    }
  }

  lemma HexIsUpper(n: int)
    requires 0 <= n < 16
    ensures HexDigit(n) == UpperHex(n)
  {
  }

  ghost function QuotedByte(b: byte): string {
    var c := b as char;
    if 'A' <= c <= 'Z' || 'a' <= c <= 'z' || '0' <= c <= '9' || c in "_.-~" then [c]
    else ['%', UpperHex(b / 16), UpperHex(b % 16)]
  }

  ghost function UpperHex(n: int): char
    requires 0 <= n < 16
  {
    "0123456789ABCDEF"[n]
  }

  ghost function Unquote(s: string): seq<byte> {
    if s == [] then []
    else if s[0] == '%' && |s| >= 3 then [HexValue(s[1]) * 16 + HexValue(s[2])] + Unquote(s[3..])
    else [if s[0] as int < 256 then s[0] as int else 0] + Unquote(s[1..])
  }

  lemma {:induction false} QuoteRoundTrip(b: seq<byte>)
    ensures Unquote(Quote(b)) == b
  {
    if b != [] {
      QuoteRoundTrip(b[1..]);
      var head := if Unreserved(b[0]) then [b[0] as char] else ['%', HexDigit(b[0] / 16), HexDigit(b[0] % 16)];
      assert (head + Quote(b[1..]))[|head|..] == Quote(b[1..]);
      assert b == [b[0]] + b[1..];
    }
  }

  /** `<quoted>.json`, the file of a thread, and `<quoted>.json.tmp`, its temporary. */
  function TargetName(thread: seq<byte>): string {
    Quote(thread) + ".json"
  }

  function TempName(thread: seq<byte>): string {
    TargetName(thread) + ".tmp"
  }

  /** What `glob("*.json")` matches. */
  predicate IsJsonName(name: string) {
    |name| >= 5 && name[|name| - 5..] == ".json"
  }

  /** Distinct threads never share a file, and a temporary is never loaded nor another thread's file. */
  lemma FileNamesDisjoint(a: seq<byte>, b: seq<byte>)
    ensures TargetName(a) == TargetName(b) <==> a == b
    ensures IsJsonName(TargetName(a)) && !IsJsonName(TempName(a))
    ensures TempName(a) != TargetName(b)
  {
    var x, y := TargetName(a), TargetName(b);
    assert x[..|x| - 5] == Quote(a) && y[..|y| - 5] == Quote(b);
    QuoteRoundTrip(a);
    QuoteRoundTrip(b);
    assert x[|x| - 5..] == ".json" && y[|y| - 5..] == ".json";
    var t := TempName(a);
    assert t[|t| - 1] == 'p' && ".json"[4] == 'n';
    assert t[|t| - 5..][4] == 'p';
    assert y[|y| - 5..][4] == y[|y| - 1];
  }
}
