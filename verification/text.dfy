/** The pieces of the JavaScript string API the spreadsheet pipeline relies on:
    `trim`, `indexOf`, `split`, `join` and `parseInt(_, 10)`, over strings as
    sequences of characters. */
module Text {
  import opened Wrappers

  predicate IsDigit(c: char) {
    '0' <= c <= '9'
  }

  predicate AllDigits(s: string) {
    forall i :: 0 <= i < |s| ==> IsDigit(s[i])
  }

  /** The white space `String.prototype.trim` removes (ASCII controls, space,
      no-break space and the byte-order mark; other Unicode spaces are not
      modelled). */
  predicate IsSpace(c: char) {
    c == ' ' || c == '\t' || c == '\n' || c == '\r'
    || c as int == 0x0B || c as int == 0x0C || c as int == 0xA0 || c as int == 0xFEFF
  }

  /** A string with no white space at either end: what `trim` produces. */
  predicate Trimmed(s: string) {
    s == [] || (!IsSpace(s[0]) && !IsSpace(s[|s| - 1]))
  }

  function TrimStart(s: string): (r: string)
    ensures |r| <= |s| && r == s[|s| - |r|..]
    ensures forall i :: 0 <= i < |s| - |r| ==> IsSpace(s[i])
    ensures r == [] || !IsSpace(r[0])
  {
    if |s| > 0 && IsSpace(s[0]) then TrimStart(s[1..]) else s
  }

  function TrimEnd(s: string): (r: string)
    ensures |r| <= |s| && r == s[..|r|]
    ensures forall i :: |r| <= i < |s| ==> IsSpace(s[i])
    ensures r == [] || !IsSpace(r[|r| - 1])
  {
    if |s| > 0 && IsSpace(s[|s| - 1]) then TrimEnd(s[..|s| - 1]) else s
  }

  /** `s.trim()`. */
  function Trim(s: string): (r: string)
    ensures Trimmed(r)
    ensures |r| <= |s|
  {
    var t := TrimStart(s);
    var r := TrimEnd(t);
    assert r != [] ==> r[0] == t[0];
    r
  }

  /** Trimming only removes characters: a character absent from `s` is absent
      from `Trim(s)`. */
  lemma TrimDropsOnly(s: string, c: char)
    requires c !in s
    ensures c !in Trim(s)
  {
    var t := TrimStart(s);
    forall k | 0 <= k < |t|
      ensures t[k] != c
    {
      assert t[k] == s[|s| - |t| + k];
    }
    var r := TrimEnd(t);
    forall k | 0 <= k < |r|
      ensures r[k] != c
    {
      assert r[k] == t[k];
    }
  }

  /** A string made of white space only. */
  predicate AllSpace(s: string) {
    forall i :: 0 <= i < |s| ==> IsSpace(s[i])
  }

  /** `s.trim() === ""` exactly when `s` is all white space. */
  lemma TrimEmpty(s: string)
    ensures Trim(s) == "" <==> AllSpace(s)
  {
    var t := TrimStart(s);
    if t != [] {
      assert !IsSpace(s[|s| - |t|]);
      assert Trim(s)[0] == t[0];
    }
  }

  /** Trimming leaves an already trimmed string alone, so trimming twice is
      the same as trimming once. */
  lemma TrimOfTrimmed(s: string)
    requires Trimmed(s)
    ensures Trim(s) == s
  {
  }

  /** `s.indexOf(c)`, with `|s|` standing for "not found" (-1). */
  function IndexOf(s: string, c: char): (i: nat)
    ensures i <= |s|
    ensures i < |s| ==> s[i] == c
    ensures c !in s[..i]
  {
    if |s| == 0 then 0
    else if s[0] == c then 0
    else
      var j := IndexOf(s[1..], c);
      assert s[..1 + j] == [s[0]] + s[1..][..j];
      1 + j
  }

  lemma {:induction false} IndexOfAfterPrefix(a: string, c: char, b: string)
    requires c !in a
    ensures IndexOf(a + b, c) == |a| + IndexOf(b, c)
  {
    if |a| > 0 {
      assert (a + b)[1..] == a[1..] + b;
      IndexOfAfterPrefix(a[1..], c, b);
    } else {
      assert a + b == b;
    }
  }

  /** `parts.join(sep)`. */
  function Join(parts: seq<string>, sep: char): string
  {
    if |parts| == 0 then ""
    else if |parts| == 1 then parts[0]
    else parts[0] + [sep] + Join(parts[1..], sep)
  }

  lemma JoinPair(a: string, b: string, sep: char)
    ensures Join([a, b], sep) == a + [sep] + b
  {
    assert [a, b][1..] == [b];
  }

  lemma JoinTriple(a: string, b: string, c: string, sep: char)
    ensures Join([a, b, c], sep) == a + [sep] + b + [sep] + c
  {
    assert [a, b, c][1..] == [b, c];
    JoinPair(b, c, sep);
  }

  /** `s.split(sep)` for a one-character separator: never empty, no piece
      contains the separator, and joining the pieces gives `s` back. */
  function Split(s: string, sep: char): (parts: seq<string>)
    ensures |parts| >= 1
    ensures forall k :: 0 <= k < |parts| ==> sep !in parts[k]
    ensures Join(parts, sep) == s
    decreases |s|
  {
    var i := IndexOf(s, sep);
    if i == |s| then
      assert s[..i] == s;
      [s]
    else
      var rest := Split(s[i + 1..], sep);
      var parts := [s[..i]] + rest;
      assert parts[1..] == rest;
      assert s == s[..i] + [sep] + s[i + 1..];
      parts
  }

  /** Splitting a join of separator-free pieces gives the pieces back. */
  lemma {:induction false} SplitJoin(parts: seq<string>, sep: char)
    requires |parts| >= 1
    requires forall k :: 0 <= k < |parts| ==> sep !in parts[k]
    ensures Split(Join(parts, sep), sep) == parts
  {
    if |parts| == 1 {
      IndexOfAfterPrefix(parts[0], sep, "");
      assert parts[0] + "" == parts[0];
    } else {
      var head := parts[0];
      var rest := Join(parts[1..], sep);
      var s := head + [sep] + rest;
      assert Join(parts, sep) == s;
      IndexOfAfterPrefix(head, sep, [sep] + rest);
      assert s == head + ([sep] + rest);
      assert IndexOf(s, sep) == |head|;
      assert s[..|head|] == head;
      assert s[|head| + 1..] == rest;
      SplitJoin(parts[1..], sep);
      assert parts == [head] + parts[1..];
    }
  }

  function DigitValue(c: char): nat
    requires IsDigit(c)
  {
    c as int - '0' as int
  }

  function DigitChar(d: nat): (c: char)
    requires d < 10
    ensures IsDigit(c) && DigitValue(c) == d
  {
    ('0' as int + d) as char
  }

  /** The decimal value of a string of digits (leading zeros allowed). */
  function Value(s: string): nat
    requires AllDigits(s)
  {
    if |s| == 0 then 0 else Value(s[..|s| - 1]) * 10 + DigitValue(s[|s| - 1])
  }

  /** The shortest decimal spelling of `n`: a digit string whose value is `n`. */
  function Digits(n: nat): (s: string)
    ensures |s| >= 1 && AllDigits(s)
    ensures Value(s) == n
    decreases n
  {
    if n < 10 then [DigitChar(n)]
    else
      var s := Digits(n / 10) + [DigitChar(n % 10)];
      assert s[..|s| - 1] == Digits(n / 10);
      s
  }

  /** The longest prefix of `s` made of digits. */
  function DigitPrefix(s: string): (r: string)
    ensures |r| <= |s| && r == s[..|r|] && AllDigits(r)
    ensures |r| == |s| || !IsDigit(s[|r|])
  {
    if |s| > 0 && IsDigit(s[0]) then
      var t := DigitPrefix(s[1..]);
      assert [s[0]] + t == s[..1 + |t|];
      [s[0]] + t
    else ""
  }

  /** `parseInt(s, 10)`: leading white space and one sign are skipped, then
      the longest run of digits is read; `None` stands for `NaN`. */
  function ParseInt(s: string): (r: Option<int>)
    ensures r.None? ==> DigitPrefix(s) == []
  {
    ReadSigned(TrimStart(s))
  }

  /** The reading of `parseInt` once the white space is skipped. */
  function ReadSigned(t: string): Option<int> {
    if |t| > 0 && t[0] == '-' then
      match ReadDigits(t[1..])
      case None => None
      case Some(v) => Some(-v)
    else if |t| > 0 && t[0] == '+' then ReadDigits(t[1..])
    else ReadDigits(t)
  }

  /** The value of the digits `s` begins with, if it begins with one. */
  function ReadDigits(s: string): Option<int> {
    var ds := DigitPrefix(s);
    if ds == "" then None else Some(Value(ds))
  }

  /** A non-empty string of digits parses to its decimal value. */
  lemma ParseIntOfDigits(s: string)
    requires s != [] && AllDigits(s)
    ensures ParseInt(s) == Some(Value(s))
  {
    assert !IsSpace(s[0]) && IsDigit(s[0]);
    assert TrimStart(s) == s;
    DigitPrefixOfDigits(s);
  }

  /** The pieces `parseInt` sees: leading white space `ws`, at most one sign,
      a run of digits and whatever follows them. */
  predicate NumberParts(ws: string, sign: string, digits: string, rest: string) {
    AllSpace(ws) && (sign == "" || sign == "-" || sign == "+") && AllDigits(digits)
    && (rest == [] || !IsDigit(rest[0]))
    && var u := sign + (digits + rest);
       (u == [] || !IsSpace(u[0])) && (sign == "" && u != [] ==> u[0] != '-' && u[0] != '+')
  }

  /** Every text splits into the pieces `parseInt` sees. */
  lemma NumberPartsExist(s: string) returns (ws: string, sign: string, digits: string, rest: string)
    ensures NumberParts(ws, sign, digits, rest) && s == ws + (sign + (digits + rest))
  {
    var t := TrimStart(s);
    ws := s[..|s| - |t|];
    SplitAt(s, |s| - |t|);
    var k := if |t| > 0 && (t[0] == '-' || t[0] == '+') then 1 else 0;
    sign := t[..k];
    var body := t[k..];
    SplitAt(t, k);
    digits := DigitPrefix(body);
    rest := body[|digits|..];
    SplitAt(body, |digits|);
    assert AllSpace(ws) by {
      assert forall i :: 0 <= i < |ws| ==> ws[i] == s[i];
    }
    assert sign == "" || sign == "-" || sign == "+" by {
      if k == 1 { assert sign == [t[0]]; }
    }
  }

  lemma SplitAt<T>(x: seq<T>, n: nat)
    requires n <= |x|
    ensures x == x[..n] + x[n..]
  {
  }

  /** Split into those pieces, a text reads as NaN exactly when no digit
      follows the white space and the sign, and otherwise as the signed
      value of the digits read: " 5", "+5" and "5x" all read as 5, "-07" as
      -7, and "x5", "+" and " " as NaN. */
  lemma ParseIntReads(ws: string, sign: string, digits: string, rest: string)
    requires NumberParts(ws, sign, digits, rest)
    ensures ParseInt(ws + (sign + (digits + rest))) == SignedValue(sign == "-", digits)
  {
    if sign == "" {
      assert sign + (digits + rest) == digits + rest;
      ParseIntSkips(ws, digits + rest);
      ReadUnsignedParts(digits, rest);
    } else {
      SignedParts(ws, sign, digits, rest);
    }
  }

  lemma SignedParts(ws: string, sign: string, digits: string, rest: string)
    requires AllSpace(ws) && (sign == "-" || sign == "+")
    requires AllDigits(digits) && (rest == [] || !IsDigit(rest[0]))
    ensures ParseInt(ws + (sign + (digits + rest))) == SignedValue(sign == "-", digits)
  {
    var c := sign[0];
    assert sign == [c];
    ParseIntSkips(ws, [c] + (digits + rest));
    ReadSignParts(c, digits, rest);
  }

  lemma ParseIntSkips(ws: string, u: string)
    requires AllSpace(ws) && (u == [] || !IsSpace(u[0]))
    ensures ParseInt(ws + u) == ReadSigned(u)
  {
    TrimStartOfSpaced(ws, u);
  }

  lemma ReadUnsignedParts(digits: string, rest: string)
    requires AllDigits(digits) && (rest == [] || !IsDigit(rest[0]))
    requires digits + rest != [] ==> (digits + rest)[0] != '-' && (digits + rest)[0] != '+'
    ensures ReadSigned(digits + rest) == SignedValue(false, digits)
  {
    ReadDigitsParts(digits, rest);
  }

  lemma ReadSignParts(c: char, digits: string, rest: string)
    requires c == '-' || c == '+'
    requires AllDigits(digits) && (rest == [] || !IsDigit(rest[0]))
    ensures ReadSigned([c] + (digits + rest)) == SignedValue(c == '-', digits)
  {
    ReadDigitsParts(digits, rest);
    if c == '-' {
      ReadMinus(digits + rest);
    } else {
      ReadPlus(digits + rest);
    }
  }

  /** The number a run of digits stands for after an optional minus sign;
      `None` when the run is empty. */
  function SignedValue(negative: bool, digits: string): Option<int>
    requires AllDigits(digits)
  {
    if digits == [] then None
    else if negative then Some(-(Value(digits) as int)) else Some(Value(digits) as int)
  }

  lemma ReadPlus(body: string)
    ensures ReadSigned(['+'] + body) == ReadDigits(body)
  {
    assert (['+'] + body)[1..] == body;
  }

  lemma ReadMinus(body: string)
    ensures ReadSigned(['-'] + body) == if ReadDigits(body).None? then None else Some(-ReadDigits(body).value)
  {
    assert (['-'] + body)[1..] == body;
  }

  lemma ReadDigitsParts(digits: string, rest: string)
    requires AllDigits(digits) && (rest == [] || !IsDigit(rest[0]))
    ensures ReadDigits(digits + rest) == if digits == [] then None else Some(Value(digits) as int)
  {
    DigitPrefixStops(digits, rest);
  }

  lemma {:induction false} TrimStartOfSpaced(ws: string, u: string)
    requires AllSpace(ws) && (u == [] || !IsSpace(u[0]))
    ensures TrimStart(ws + u) == u
  {
    if ws != [] {
      assert (ws + u)[0] == ws[0] && (ws + u)[1..] == ws[1..] + u;
      TrimStartOfSpaced(ws[1..], u);
    } else {
      assert ws + u == u;
    }
  }

  lemma {:induction false} DigitPrefixStops(digits: string, rest: string)
    requires AllDigits(digits) && (rest == [] || !IsDigit(rest[0]))
    ensures DigitPrefix(digits + rest) == digits
  {
    if digits == [] {
      assert digits + rest == rest;
    } else {
      assert (digits + rest)[0] == digits[0] && (digits + rest)[1..] == digits[1..] + rest;
      assert AllDigits(digits[1..]);
      DigitPrefixStops(digits[1..], rest);
      assert [digits[0]] + digits[1..] == digits;
    }
  }

  lemma {:induction false} DigitPrefixOfDigits(s: string)
    requires AllDigits(s)
    ensures DigitPrefix(s) == s
  {
    if |s| > 0 {
      assert AllDigits(s[1..]);
      DigitPrefixOfDigits(s[1..]);
      assert [s[0]] + s[1..] == s;
    }
  }
}
