/**
 * Decoding one StatsBomb location cell `"[x, y]"`, as `load_data` does with
 * `.str.strip('[]').str.split(', ', expand=True).astype(float)`.
 */
module Coordinates {
  import opened Wrappers
  import opened Events

  predicate IsBracket(c: char)
  {
    c == '[' || c == ']'
  }

  /** `s.lstrip('[]')`: drops the leading run of bracket characters. */
  function StripLeading(s: string): (r: string)
    ensures |r| <= |s| && r == s[|s| - |r|..]
    ensures forall k :: 0 <= k < |s| - |r| ==> IsBracket(s[k])
    ensures r == [] || !IsBracket(r[0])
  {
    if s != [] && IsBracket(s[0]) then StripLeading(s[1..]) else s
  }

  /** `s.rstrip('[]')`: drops the trailing run of bracket characters. */
  function StripTrailing(s: string): (r: string)
    ensures |r| <= |s| && r == s[..|r|]
    ensures forall k :: |r| <= k < |s| ==> IsBracket(s[k])
    ensures r == [] || !IsBracket(r[|r| - 1])
  {
    if s != [] && IsBracket(s[|s| - 1]) then StripTrailing(s[..|s| - 1]) else s
  }

  /** `s.strip('[]')`. */
  function StripBrackets(s: string): (r: string)
    ensures Unbracketed(r)
    ensures exists k :: StrippedAt(s, r, k)
  {
    var l := StripLeading(s);
    var r := StripTrailing(l);
    StripBothEnds(s, l, r);
    r
  }

  lemma StripBothEnds(s: string, l: string, r: string)
    requires |l| <= |s| && l == s[|s| - |l|..]
    requires forall k :: 0 <= k < |s| - |l| ==> IsBracket(s[k])
    requires l == [] || !IsBracket(l[0])
    requires |r| <= |l| && r == l[..|r|]
    requires forall k :: |r| <= k < |l| ==> IsBracket(l[k])
    requires r == [] || !IsBracket(r[|r| - 1])
    ensures Unbracketed(r) && StrippedAt(s, r, |s| - |l|)
  {
    var k := |s| - |l|;
    assert r == s[k..k + |r|];
    forall j | k + |r| <= j < |s|
      ensures IsBracket(s[j])
    {
      assert s[j] == l[j - k];
    }
    if r != [] {
      assert r[0] == l[0];
    }
  }

  /** `r` is `s` with `k` brackets removed at the front and only brackets removed at the back. */
  predicate StrippedAt(s: string, r: string, k: nat)
  {
    && k + |r| <= |s| && r == s[k..k + |r|]
    && (forall j :: 0 <= j < k ==> IsBracket(s[j]))
    && (forall j :: k + |r| <= j < |s| ==> IsBracket(s[j]))
  }

  /** Neither end of `m` is a bracket character. */
  predicate Unbracketed(m: string)
  {
    m == [] || (!IsBracket(m[0]) && !IsBracket(m[|m| - 1]))
  }

  /** Stripping removes exactly one pair of enclosing brackets from an unbracketed middle. */
  lemma StripEnclosed(m: string)
    requires Unbracketed(m)
    ensures StripBrackets("[" + m + "]") == m
  {
    if m == [] {
      assert "[" + m + "]" == "[]";
    } else {
      StripLeadingOnce(m + "]");
      assert ("[" + m + "]") == "[" + (m + "]");
      StripTrailingOnce(m);
    }
  }

  lemma StripLeadingOnce(l: string)
    requires l != [] && !IsBracket(l[0])
    ensures StripLeading("[" + l) == l
  {
    assert ("[" + l)[1..] == l;
  }

  lemma StripTrailingOnce(m: string)
    requires m != [] && !IsBracket(m[|m| - 1])
    ensures StripTrailing(m + "]") == m
  {
    assert (m + "]")[..|m|] == m;
  }

  const Separator: string := ", "

  /** `s` holds no occurrence of the separator `", "`. */
  predicate FreeOfSeparator(s: string)
  {
    forall i :: 0 <= i < |s| - 1 ==> !(s[i] == ',' && s[i + 1] == ' ')
  }

  /** `", ".join(parts)`. */
  function Join(parts: seq<string>): string
    requires |parts| >= 1
  {
    parts[0] + if |parts| == 1 then "" else Separator + Join(parts[1..])
  }

  /**
   * `s.split(", ")`. The result is the only way of writing `s` as pieces joined
   * by the separator in which no piece holds the separator.
   */
  function Split(s: string): (parts: seq<string>)
    ensures |parts| >= 1
    ensures Join(parts) == s
    ensures forall i :: 0 <= i < |parts| ==> FreeOfSeparator(parts[i])
    decreases |s|
  {
    if |s| >= 2 && s[0] == ',' && s[1] == ' ' then
      [""] + Split(s[2..])
    else if s == [] then
      [""]
    else
      var rest := Split(s[1..]);
      JoinExtendHead(s[0], rest);
      FreeExtend(s[0], rest[0], s[1..]);
      [[s[0]] + rest[0]] + rest[1..]
  }

  lemma JoinExtendHead(c: char, parts: seq<string>)
    requires |parts| >= 1
    ensures Join([[c] + parts[0]] + parts[1..]) == [c] + Join(parts)
  {
    var q := [[c] + parts[0]] + parts[1..];
    assert q[0] == [c] + parts[0];
    assert q[1..] == parts[1..];
    var tail := if |parts| == 1 then "" else Separator + Join(parts[1..]);
    assert Join(q) == ([c] + parts[0]) + tail;
    ConcatAssoc([c], parts[0], tail);
  }

  lemma ConcatAssoc(a: string, b: string, c: string)
    ensures (a + b) + c == a + (b + c)
  {
  }

  /** A character put before a piece creates no separator unless it starts one. */
  lemma FreeExtend(c: char, t: string, rest: string)
    requires FreeOfSeparator(t)
    requires t <= rest
    requires !(c == ',' && |rest| > 0 && rest[0] == ' ')
    ensures FreeOfSeparator([c] + t)
  {
    var u := [c] + t;
    forall i | 0 <= i < |u| - 1
      ensures !(u[i] == ',' && u[i + 1] == ' ')
    {
      if i > 0 {
        assert u[i] == t[i - 1] && u[i + 1] == t[i];
      } else {
        assert u[1] == rest[0];
      }
    }
  }

  /** A string built from two or more pieces holds the separator. */
  lemma JoinedHasSeparator(parts: seq<string>)
    requires |parts| >= 1
    ensures FreeOfSeparator(Join(parts)) ==> |parts| == 1
  {
    if |parts| > 1 {
      var s := Join(parts);
      var k := |parts[0]|;
      assert s == parts[0] + (Separator + Join(parts[1..]));
      assert s[k] == ',' && s[k + 1] == ' ';
    }
  }

  /** A piece free of the separator is split off before the first separator. */
  lemma {:induction false} SplitFirst(a: string, b: string)
    requires FreeOfSeparator(a)
    ensures Split(a + Separator + b) == [a] + Split(b)
  {
    var s := a + Separator + b;
    if a == [] {
      assert s[2..] == b;
    } else {
      assert s[1..] == a[1..] + Separator + b;
      SplitFirst(a[1..], b);
      assert !(|s| >= 2 && s[0] == ',' && s[1] == ' ') by {
        if |a| >= 2 {
          assert s[1] == a[1];
        } else {
          assert s[1] == ',';
        }
      }
      assert [a[0]] + a[1..] == a;
    }
  }

  /** A string free of the separator splits into itself alone. */
  lemma {:induction false} SplitWhole(b: string)
    requires FreeOfSeparator(b)
    ensures Split(b) == [b]
  {
    var parts := Split(b);
    JoinedHasSeparator(parts);
    assert Join(parts) == parts[0] + "";
    assert parts[0] + "" == parts[0];
    assert parts == [parts[0]];
  }

  /** The tokens of a location cell: `s.strip('[]').split(', ')`. */
  function Tokens(s: string): (r: seq<string>)
    ensures |r| >= 1
  {
    Split(StripBrackets(s))
  }

  /** The tokens of a cell, joined by the separator, give back the stripped cell; none holds the separator. */
  lemma TokensRejoin(s: string)
    ensures Join(Tokens(s)) == StripBrackets(s)
    ensures forall i :: 0 <= i < |Tokens(s)| ==> FreeOfSeparator(Tokens(s)[i])
  {
  }

  /** The first and second tokens of `"[" + a + ", " + b + "]"` are `a` and `b`. */
  lemma TokensOfPair(a: string, b: string)
    requires FreeOfSeparator(a) && FreeOfSeparator(b)
    requires a == [] || !IsBracket(a[0])
    requires b == [] || !IsBracket(b[|b| - 1])
    ensures Tokens("[" + a + Separator + b + "]") == [a, b]
  {
    var m := a + Separator + b;
    UnbracketedPair(a, b);
    EnclosePair(a, b);
    TokensEnclosed(m);
    SplitPair(a, b);
  }

  lemma UnbracketedPair(a: string, b: string)
    requires a == [] || !IsBracket(a[0])
    requires b == [] || !IsBracket(b[|b| - 1])
    ensures Unbracketed(a + Separator + b)
  {
    var m := a + Separator + b;
    assert m[0] == if a == [] then ',' else a[0];
    assert m[|m| - 1] == if b == [] then ' ' else b[|b| - 1];
  }

  lemma EnclosePair(a: string, b: string)
    ensures "[" + a + Separator + b + "]" == "[" + (a + Separator + b) + "]"
  {
  }

  /** The tokens of a bracketed middle are the pieces of the middle. */
  lemma TokensEnclosed(m: string)
    requires Unbracketed(m)
    ensures Tokens("[" + m + "]") == Split(m)
  {
    StripEnclosed(m);
  }

  lemma SplitPair(a: string, b: string)
    requires FreeOfSeparator(a) && FreeOfSeparator(b)
    ensures Split(a + Separator + b) == [a, b]
  {
    SplitFirst(a, b);
    SplitWhole(b);
  }

  // ---- `float(token)` for the decimal tokens StatsBomb writes ----

  predicate IsDigit(c: char)
  {
    '0' <= c <= '9'
  }

  predicate AllDigits(s: string)
  {
    forall i :: 0 <= i < |s| ==> IsDigit(s[i])
  }

  predicate IsSpace(c: char)
  {
    c == ' ' || c == '\t' || c == '\n' || c == '\r'
  }

  /** The number a string of decimal digits denotes. */
  function DigitsValue(d: string): nat
    requires AllDigits(d)
  {
    if d == [] then 0 else 10 * DigitsValue(d[..|d| - 1]) + (d[|d| - 1] as int - '0' as int)
  }

  function Pow10(n: nat): (r: nat)
    ensures r >= 1
  {
    if n == 0 then 1 else 10 * Pow10(n - 1)
  }

  /** Index of the first '.' in `t`, or `|t|` when there is none. */
  function DotIndex(t: string): (k: nat)
    ensures k <= |t|
    ensures forall i :: 0 <= i < k ==> t[i] != '.'
    ensures k < |t| ==> t[k] == '.'
  {
    if t == [] then 0 else if t[0] == '.' then 0 else 1 + DotIndex(t[1..])
  }

  /** `s` with surrounding white space removed, as `float` ignores it. */
  function Trim(s: string): string
    decreases |s|
  {
    if s != [] && IsSpace(s[0]) then Trim(s[1..])
    else if s != [] && IsSpace(s[|s| - 1]) then Trim(s[..|s| - 1])
    else s
  }

  /** An unsigned decimal: digits, optionally a point and more digits, at least one digit. */
  function ParseUnsigned(t: string): Option<real>
  {
    var dot := DotIndex(t);
    var whole := t[..dot];
    var frac := if dot < |t| then t[dot + 1..] else "";
    if AllDigits(whole) && AllDigits(frac) && |whole| + |frac| > 0 then
      Some(DecimalValue(whole, frac))
    else
      None
  }

  /** The value of `whole.frac`. */
  function DecimalValue(whole: string, frac: string): real
    requires AllDigits(whole) && AllDigits(frac)
  {
    DigitsValue(whole) as real + DigitsValue(frac) as real / Pow10(|frac|) as real
  }

  /** `float(s)` on decimal notation; `None` where Python raises ValueError. */
  function ParseNumber(s: string): Option<real>
  {
    var t := Trim(s);
    if t != [] && (t[0] == '-' || t[0] == '+') then
      match ParseUnsigned(t[1..])
      case None => None
      case Some(v) => Some(if t[0] == '-' then -v else v)
    else
      ParseUnsigned(t)
  }

  /** Decimal digits of `n`, most significant first: `str(n)`. */
  function NatToDigits(n: nat): (d: string)
    ensures |d| >= 1 && AllDigits(d)
    ensures DigitsValue(d) == n
    decreases n
  {
    var last := [('0' as int + n % 10) as char];
    if n < 10 then last
    else
      var d := NatToDigits(n / 10) + last;
      assert d[..|d| - 1] == NatToDigits(n / 10);
      d
  }

  /** A coordinate written with one decimal place, `f"{v / 10:.1f}"` for a natural `v`. */
  function FormatTenths(v: nat): (s: string)
    ensures FreeOfSeparator(s) && s != []
    ensures !IsBracket(s[0]) && !IsBracket(s[|s| - 1])
  {
    NatToDigits(v / 10) + "." + [('0' as int + v % 10) as char]
  }

  /** Parsing undoes formatting with one decimal place. */
  lemma ParseFormatTenths(v: nat)
    ensures ParseNumber(FormatTenths(v)) == Some(v as real / 10.0)
  {
    var whole := NatToDigits(v / 10);
    var last := [('0' as int + v % 10) as char];
    var s := FormatTenths(v);
    assert s == whole + "." + last;
    ParseUnsignedOnly(s);
    ParseDecimal(whole, last);
    assert DigitsValue(last) == v % 10 by {
      assert last[..0] == [];
    }
    assert Pow10(|last|) == 10;
    assert DecimalValue(whole, last) == (v / 10) as real + (v % 10) as real / 10.0;
    assert (v / 10) as real + (v % 10) as real / 10.0 == v as real / 10.0;
  }

  /** A token without surrounding space or sign parses as an unsigned decimal. */
  lemma ParseUnsignedOnly(s: string)
    requires s != [] && !IsSpace(s[0]) && !IsSpace(s[|s| - 1])
    requires s[0] != '-' && s[0] != '+'
    ensures ParseNumber(s) == ParseUnsigned(s)
  {
    assert Trim(s) == s;
  }

  /** A point between two digit strings splits a token into its whole and fractional parts. */
  lemma ParseDecimal(whole: string, frac: string)
    requires AllDigits(whole) && AllDigits(frac) && whole != []
    ensures ParseUnsigned(whole + "." + frac) == Some(DecimalValue(whole, frac))
  {
    var t := whole + "." + frac;
    DotIndexAt(whole, frac);
    assert t[..|whole|] == whole;
    assert t[|whole| + 1..] == frac;
  }

  lemma DotIndexAt(whole: string, last: string)
    requires AllDigits(whole)
    ensures DotIndex(whole + "." + last) == |whole|
  {
    var t := whole + "." + last;
    assert forall i :: 0 <= i < |whole| ==> t[i] == whole[i];
    assert t[|whole|] == '.';
  }

  /** A location cell written the way StatsBomb exports write it. */
  function EncodeTenths(vx: nat, vy: nat): string
  {
    "[" + FormatTenths(vx) + Separator + FormatTenths(vy) + "]"
  }

  /** Decoding of one cell: the first two parsed tokens, or the offending string. */
  function DecodeCell(cell: Option<string>): (r: Result<Point, string>)
    ensures cell.None? ==> r == Success(Point(None, None))
    ensures r.Failure? ==> cell == Some(r.error)
  {
    match cell
    case None => Success(Point(None, None))
    case Some(s) =>
      match DecodeTokens(Tokens(s))
      case Some(p) => Success(p)
      case None => Failure(s)
  }

  /**
   * The values of the tokens of one cell, when every token is a number: the
   * first gives x, the second (when there is one) gives y.
   */
  function DecodeTokens(parts: seq<string>): (r: Option<Point>)
    requires |parts| >= 1
    ensures r.Some? <==> forall i :: 0 <= i < |parts| ==> ParseNumber(parts[i]).Some?
    ensures r.Some? ==> r.value.x == ParseNumber(parts[0])
    ensures r.Some? && |parts| == 1 ==> r.value.y == None
    ensures r.Some? && |parts| >= 2 ==> r.value.y == ParseNumber(parts[1])
  {
    if forall i :: 0 <= i < |parts| ==> ParseNumber(parts[i]).Some? then
      Some(Point(ParseNumber(parts[0]), if |parts| >= 2 then ParseNumber(parts[1]) else None))
    else
      None
  }

  /**
   * The decoding the dashboard relies on: `"[a, b]"` yields x parsed from `a`
   * and y parsed from `b`, and it fails exactly when one of them does not parse.
   */
  lemma DecodePair(a: string, b: string)
    requires FreeOfSeparator(a) && FreeOfSeparator(b)
    requires a == [] || !IsBracket(a[0])
    requires b == [] || !IsBracket(b[|b| - 1])
    ensures var r := DecodeCell(Some("[" + a + Separator + b + "]"));
      && (r.Success? <==> ParseNumber(a).Some? && ParseNumber(b).Some?)
      && (r.Success? ==> r.value == Point(ParseNumber(a), ParseNumber(b)))
  {
    TokensOfPair(a, b);
    DecodeTwoTokens(a, b);
  }

  lemma DecodeTwoTokens(a: string, b: string)
    ensures DecodeTokens([a, b])
         == if ParseNumber(a).Some? && ParseNumber(b).Some?
            then Some(Point(ParseNumber(a), ParseNumber(b))) else None
  {
    var parts := [a, b];
    if ParseNumber(a).None? {
      assert ParseNumber(parts[0]).None?;
    } else if ParseNumber(b).None? {
      assert ParseNumber(parts[1]).None?;
    }
  }

  /** A cell as StatsBomb writes it decodes to the coordinates it was written from. */
  lemma DecodeEncodeTenths(vx: nat, vy: nat)
    ensures DecodeCell(Some(EncodeTenths(vx, vy)))
         == Success(Point(Some(vx as real / 10.0), Some(vy as real / 10.0)))
  {
    DecodePair(FormatTenths(vx), FormatTenths(vy));
    ParseFormatTenths(vx);
    ParseFormatTenths(vy);
  }

  /** `"[45.3, 12.1]"` decodes to x = 45.3 and y = 12.1. */
  lemma DecodeExample()
    ensures DecodeCell(Some("[45.3, 12.1]")) == Success(Point(Some(45.3), Some(12.1)))
  {
    assert NatToDigits(45) == "45" by {
      assert NatToDigits(4) == "4";
    }
    assert NatToDigits(12) == "12" by {
      assert NatToDigits(1) == "1";
    }
    assert EncodeTenths(453, 121) == "[45.3, 12.1]";
    DecodeEncodeTenths(453, 121);
  }

  /** A token without a decimal point that holds a non-digit is not a number. */
  lemma ParseRejectsNonDigit(t: string, k: nat)
    requires t != [] && !IsSpace(t[0]) && !IsSpace(t[|t| - 1])
    requires t[0] != '-' && t[0] != '+'
    requires forall i :: 0 <= i < |t| ==> t[i] != '.'
    requires k < |t| && !IsDigit(t[k])
    ensures ParseNumber(t) == None
  {
    assert Trim(t) == t;
    assert DotIndex(t) == |t|;
    assert t[..|t|] == t;
  }

  /** A cell one of whose tokens is not a number is malformed. */
  lemma DecodeFailsOn(s: string, k: nat)
    requires k < |Tokens(s)| && ParseNumber(Tokens(s)[k]).None?
    ensures DecodeCell(Some(s)) == Failure(s)
  {
    var parts := Tokens(s);
    assert !ParseNumber(parts[k]).Some?;
    assert DecodeTokens(parts).None?;
  }

  /** A token that is not a number makes the whole cell malformed. */
  lemma DecodeRejectsWord()
    ensures DecodeCell(Some("[abc, 12]")) == Failure("[abc, 12]")
  {
    TokensOfWord();
    ParseOfWord();
    DecodeFailsOn("[abc, 12]", 0);
  }

  lemma TokensOfWord()
    ensures Tokens("[abc, 12]") == ["abc", "12"]
  {
    var a, b := "abc", "12";
    assert FreeOfSeparator(a) by {
      assert forall i :: 0 <= i < |a| ==> a[i] != ',';
    }
    assert FreeOfSeparator(b) by {
      assert forall i :: 0 <= i < |b| ==> b[i] != ',';
    }
    assert "[" + a + Separator + b + "]" == "[abc, 12]";
    TokensOfPair(a, b);
  }

  lemma ParseOfWord()
    ensures ParseNumber("abc") == None
  {
    ParseRejectsNonDigit("abc", 0);
  }

  /** Without the space after the comma there is one token, "10,20", and it is not a number. */
  lemma DecodeRejectsMissingSpace()
    ensures DecodeCell(Some("[10,20]")) == Failure("[10,20]")
  {
    TokensWithoutSpace();
    ParseWithoutSpace();
    DecodeFailsOn("[10,20]", 0);
  }

  lemma TokensWithoutSpace()
    ensures Tokens("[10,20]") == ["10,20"]
  {
    var m := "10,20";
    assert FreeOfSeparator(m) by {
      assert m[2] == ',' && m[3] == '2';
      assert forall i :: 0 <= i < |m| - 1 && i != 2 ==> m[i] != ',';
    }
    assert "[" + m + "]" == "[10,20]";
    TokensOfWhole(m);
  }

  /** A middle free of the separator is a single token. */
  lemma TokensOfWhole(m: string)
    requires Unbracketed(m) && FreeOfSeparator(m)
    ensures Tokens("[" + m + "]") == [m]
  {
    TokensEnclosed(m);
    SplitWhole(m);
  }

  lemma ParseWithoutSpace()
    ensures ParseNumber("10,20") == None
  {
    ParseRejectsNonDigit("10,20", 2);
  }
}
