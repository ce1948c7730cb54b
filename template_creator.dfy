/** XLTemplateCreator: the build tool that turns a template workbook into a
    C++ array definition. Its output is two header lines giving the byte
    count, then every byte as a "0x" literal with two lower-case hex digits,
    twenty to a line, separated by ", ", and a closing "};". Standard
    output is modelled as the text returned; the file as its bytes, None
    when it cannot be opened. */
module TemplateCreator {
  import opened Wrappers
  import Text

  type byte = x: int | 0 <= x < 256

  // ---------------------------------------------------------------------
  // Two hex digits

  function HexDigit(d: nat): (c: char)
    requires d < 16
  {
    if d < 10 then '0' + d as char else 'a' + (d - 10) as char
  }

  predicate IsHexDigit(c: char)
  {
    '0' <= c <= '9' || 'a' <= c <= 'f'
  }

  function HexValue(c: char): (d: nat)
    requires IsHexDigit(c)
    ensures d < 16
  {
    if c <= '9' then (c - '0') as nat else (c - 'a') as nat + 10
  }

  lemma HexDigitValue(d: nat)
    requires d < 16
    ensures IsHexDigit(HexDigit(d)) && HexValue(HexDigit(d)) == d
  {
  }

  /** std::hex with setw(2) and setfill('0'): exactly two digits, the high
      one first. */
  function Hex2(b: byte): (r: string)
    ensures |r| == 2 && IsHexDigit(r[0]) && IsHexDigit(r[1])
    ensures HexValue(r[0]) * 16 + HexValue(r[1]) == b
  {
    HexDigitValue(b / 16);
    HexDigitValue(b % 16);
    [HexDigit(b / 16), HexDigit(b % 16)]
  }

  /** A byte's literal. */
  function Literal(b: byte): string
  {
    "0x" + Hex2(b)
  }

  // ---------------------------------------------------------------------
  // The array body

  /** What one pass of the loop prints for byte `i` of `buffer`: an indent
      when `i` is a multiple of 20, the literal, ", " unless it is the last
      byte, and a line break after every twentieth byte. */
  function Piece(buffer: seq<byte>, i: nat): string
    requires i < |buffer|
  {
    (if i % 20 == 0 then "    " else "")
    + Literal(buffer[i])
    + (if i < |buffer| - 1 then ", " else "")
    + (if (i + 1) % 20 == 0 then "\n" else "")
  }

  /** What the first `k` passes print. */
  function Pieces(buffer: seq<byte>, k: nat): string
    requires k <= |buffer|
  {
    if k == 0 then "" else Pieces(buffer, k - 1) + Piece(buffer, k - 1)
  }

  /** The loop over the buffer, printing into `out`. */
  method PrintBytes(buffer: seq<byte>) returns (out: string)
    ensures out == Pieces(buffer, |buffer|)
  {
    out := "";
    var i := 0;
    while i < |buffer|
      invariant i <= |buffer|
      invariant out == Pieces(buffer, i)
    {
      var indent := if i % 20 == 0 then "    " else "";
      var separator := if i < |buffer| - 1 then ", " else "";
      var lineBreak := if (i + 1) % 20 == 0 then "\n" else "";
      out := out + (indent + Literal(buffer[i]) + separator + lineBreak);
      i := i + 1;
    }
  }

  // ---------------------------------------------------------------------
  // The tool

  /** The two header lines for `n` bytes. */
  function Header(n: nat): string
  {
    "constexpr int templateSize = " + Text.Decimal(n) + ";\n"
    + "constexpr unsigned char templateData[" + Text.Decimal(n) + "] = {\n"
  }

  const Footer: string := "\n};\n"

  /** main: exit code 1 with nothing on standard output unless there is
      exactly one argument (argv has two entries) and the file opens;
      otherwise exit code 0 and the array definition. */
  method Run(argv: seq<string>, file: Option<seq<byte>>) returns (exitCode: int, out: string)
    ensures |argv| != 2 || file.None? ==> exitCode == 1 && out == ""
    ensures |argv| == 2 && file.Some? ==>
              exitCode == 0 && out == Header(|file.value|) + Pieces(file.value, |file.value|) + Footer
  {
    if |argv| != 2 {
      return 1, "";
    }
    if file.None? {
      return 1, "";
    }
    var buffer := file.value;
    var body := PrintBytes(buffer);
    out := Header(|buffer|) + body + Footer;
    exitCode := 0;
  }

  // ---------------------------------------------------------------------
  // Reading the array back

  predicate IsLayout(c: char)
  {
    c == ' ' || c == '\n'
  }

  /** The body without its layout: spaces and line breaks removed. */
  function Strip(s: string): (r: string)
  {
    if s == [] then []
    else (if IsLayout(s[0]) then [] else [s[0]]) + Strip(s[1..])
  }

  lemma {:induction false} StripAppend(a: string, b: string)
    ensures Strip(a + b) == Strip(a) + Strip(b)
    decreases |a|
  {
    if a != [] {
      assert (a + b)[0] == a[0];
      assert (a + b)[1..] == a[1..] + b;
      StripAppend(a[1..], b);
    } else {
      assert a + b == b;
    }
  }

  lemma {:induction false} StripAllLayout(s: string)
    requires forall i :: 0 <= i < |s| ==> IsLayout(s[i])
    ensures Strip(s) == ""
    decreases |s|
  {
    if s != [] {
      StripAllLayout(s[1..]);
    }
  }

  lemma {:induction false} StripNoLayout(s: string)
    requires forall i :: 0 <= i < |s| ==> !IsLayout(s[i])
    ensures Strip(s) == s
    decreases |s|
  {
    if s != [] {
      StripNoLayout(s[1..]);
      assert s == [s[0]] + s[1..];
    }
  }

  /** The literals of `xs`, each followed by a comma. */
  function Listed(xs: seq<byte>): string
  {
    if xs == [] then "" else Listed(xs[..|xs| - 1]) + Literal(xs[|xs| - 1]) + ","
  }

  /** Layout around a text and a separator: only the text and what the
      separator keeps are left. */
  lemma StripJoined(indent: string, l: string, separator: string, lineBreak: string, kept: string)
    requires Strip(indent) == "" && Strip(l) == l && Strip(separator) == kept && Strip(lineBreak) == ""
    ensures Strip(indent + l + separator + lineBreak) == l + kept
  {
    StripAppend(indent + l + separator, lineBreak);
    StripAppend(indent + l, separator);
    StripAppend(indent, l);
    assert "" + l == l;
    assert l + kept + "" == l + kept;
  }

  lemma StripSeparator(last: bool)
    ensures Strip(if last then "" else ", ") == if last then "" else ","
  {
    if !last {
      StripAppend(",", " ");
      StripNoLayout(",");
      StripAllLayout(" ");
      assert ", " == "," + " ";
    }
  }

  /** Without its layout, the text of a pass is the literal and a comma,
      the comma missing after the last byte. */
  lemma StripPiece(buffer: seq<byte>, i: nat)
    requires i < |buffer|
    ensures Strip(Piece(buffer, i)) == Literal(buffer[i]) + (if i < |buffer| - 1 then "," else "")
  {
    var indent := if i % 20 == 0 then "    " else "";
    var l := Literal(buffer[i]);
    var separator := if i < |buffer| - 1 then ", " else "";
    var lineBreak := if (i + 1) % 20 == 0 then "\n" else "";
    StripAllLayout(indent);
    StripAllLayout(lineBreak);
    StripNoLayout(l);
    StripSeparator(!(i < |buffer| - 1));
    StripJoined(indent, l, separator, lineBreak, if i < |buffer| - 1 then "," else "");
  }

  lemma {:induction false} StripPieces(buffer: seq<byte>, k: nat)
    requires k < |buffer|
    ensures Strip(Pieces(buffer, k)) == Listed(buffer[..k])
    decreases k
  {
    if k > 0 {
      StripPieces(buffer, k - 1);
      StripAppend(Pieces(buffer, k - 1), Piece(buffer, k - 1));
      StripPiece(buffer, k - 1);
      assert buffer[..k][..k - 1] == buffer[..k - 1];
    }
  }

  /** Reading literals back: "0x", two hex digits, then an optional comma. */
  function Decode(s: string): (xs: seq<byte>)
    decreases |s|
  {
    if |s| < 4 || !IsHexDigit(s[2]) || !IsHexDigit(s[3]) then []
    else
      var rest := if |s| > 4 && s[4] == ',' then s[5..] else s[4..];
      [HexValue(s[2]) * 16 + HexValue(s[3])] + Decode(rest)
  }

  /** One literal and its comma read back as that byte. */
  lemma DecodeStep(x: byte, rest: string)
    ensures Decode(Literal(x) + "," + rest) == [x] + Decode(rest)
  {
    var s := Literal(x) + "," + rest;
    var h := Hex2(x);
    assert s[2] == h[0] && s[3] == h[1] && s[4] == ',';
    assert s[5..] == rest;
  }

  lemma {:induction false} DecodeListed(xs: seq<byte>, rest: string)
    ensures Decode(Listed(xs) + rest) == xs + Decode(rest)
    decreases |xs|
  {
    if xs != [] {
      var n := |xs| - 1;
      var l := Literal(xs[n]);
      assert Listed(xs) + rest == Listed(xs[..n]) + (l + "," + rest);
      DecodeListed(xs[..n], l + "," + rest);
      DecodeStep(xs[n], rest);
      assert xs == xs[..n] + [xs[n]];
    } else {
      assert Listed(xs) + rest == rest;
    }
  }

  /** The last literal, without a comma, reads back as its byte. */
  lemma DecodeLast(x: byte)
    ensures Decode(Literal(x)) == [x]
  {
    var s := Literal(x);
    var h := Hex2(x);
    assert s[2] == h[0] && s[3] == h[1];
    assert s[4..] == [];
  }

  /** The printed array holds the file's bytes, in order: with the layout
      removed, the body reads back as the buffer it was printed from. */
  lemma BodyRoundTrip(buffer: seq<byte>)
    ensures Decode(Strip(Pieces(buffer, |buffer|))) == buffer
  {
    if buffer != [] {
      StrippedBody(buffer);
      DecodeBody(buffer);
    }
  }

  lemma DecodeBody(xs: seq<byte>)
    requires xs != []
    ensures var n := |xs| - 1;
            Decode(Listed(xs[..n]) + Literal(xs[n])) == xs
  {
    var n := |xs| - 1;
    DecodeListed(xs[..n], Literal(xs[n]));
    DecodeLast(xs[n]);
    assert xs == xs[..n] + [xs[n]];
  }

  lemma StrippedBody(buffer: seq<byte>)
    requires buffer != []
    ensures var n := |buffer| - 1;
            Strip(Pieces(buffer, |buffer|)) == Listed(buffer[..n]) + Literal(buffer[n])
  {
    var n := |buffer| - 1;
    assert Pieces(buffer, n + 1) == Pieces(buffer, n) + Piece(buffer, n);
    StripAppend(Pieces(buffer, n), Piece(buffer, n));
    StripPieces(buffer, n);
    StripPiece(buffer, n);
    assert Literal(buffer[n]) + "" == Literal(buffer[n]);
  }

  // ---------------------------------------------------------------------
  // Line layout

  function Count(s: string, c: char): nat
  {
    if s == [] then 0 else (if s[0] == c then 1 else 0) + Count(s[1..], c)
  }

  lemma {:induction false} CountAppend(a: string, b: string, c: char)
    ensures Count(a + b, c) == Count(a, c) + Count(b, c)
    decreases |a|
  {
    if a != [] {
      assert (a + b)[0] == a[0];
      assert (a + b)[1..] == a[1..] + b;
      CountAppend(a[1..], b, c);
    } else {
      assert a + b == b;
    }
  }

  lemma {:induction false} CountAbsent(s: string, c: char)
    requires forall i :: 0 <= i < |s| ==> s[i] != c
    ensures Count(s, c) == 0
    decreases |s|
  {
    if s != [] {
      CountAbsent(s[1..], c);
    }
  }

  lemma CountJoined(indent: string, l: string, separator: string, lineBreak: string, c: char)
    requires Count(indent, c) == 0 && Count(l, c) == 0 && Count(separator, c) == 0
    ensures Count(indent + l + separator + lineBreak, c) == Count(lineBreak, c)
  {
    CountAppend(indent + l + separator, lineBreak, c);
    CountAppend(indent + l, separator, c);
    CountAppend(indent, l, c);
  }

  lemma PieceBreaks(buffer: seq<byte>, i: nat)
    requires i < |buffer|
    ensures Count(Piece(buffer, i), '\n') == if (i + 1) % 20 == 0 then 1 else 0
  {
    var indent := if i % 20 == 0 then "    " else "";
    var l := Literal(buffer[i]);
    var separator := if i < |buffer| - 1 then ", " else "";
    var lineBreak := if (i + 1) % 20 == 0 then "\n" else "";
    CountAbsent(indent, '\n');
    CountAbsent(l, '\n');
    CountAbsent(separator, '\n');
    CountJoined(indent, l, separator, lineBreak, '\n');
    if (i + 1) % 20 == 0 {
      assert Count(lineBreak, '\n') == 1 + Count(lineBreak[1..], '\n');
    }
  }

  lemma BreaksStep(before: string, piece: string, k: nat)
    requires k > 0
    requires Count(before, '\n') == (k - 1) / 20
    requires Count(piece, '\n') == if k % 20 == 0 then 1 else 0
    ensures Count(before + piece, '\n') == k / 20
  {
    CountAppend(before, piece, '\n');
  }

  /** The body breaks the line once per twenty bytes: a full line of twenty
      literals ends with a line break, a last partial line does not. */
  lemma {:induction false} LineBreaks(buffer: seq<byte>, k: nat)
    requires k <= |buffer|
    ensures Count(Pieces(buffer, k), '\n') == k / 20
    decreases k
  {
    if k > 0 {
      LineBreaks(buffer, k - 1);
      PieceBreaks(buffer, k - 1);
      BreaksStep(Pieces(buffer, k - 1), Piece(buffer, k - 1), k);
    }
  }
}
