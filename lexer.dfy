/**
 * The scanner of mjs.cc (`getToken`) as a pure function of the input
 * characters and a stream position.  `Scan` returns the token kind, where
 * its text starts and ends, and how many newlines were skipped in front of
 * it.  The one-character rewind after an identifier or a number becomes
 * "the token ends before the character that stopped it".
 */
module Lexer {
  import opened Values

  /** `isspace` in the C locale */
  predicate IsSpace(c: char)
  {
    c == ' ' || c == '\t' || c == '\n' || c == '\U{B}' || c == '\U{C}' || c == '\r'
  }

  /** `isdigit` */
  predicate IsDigit(c: char)
  {
    '0' <= c <= '9'
  }

  /** `isalpha` in the C locale */
  predicate IsAlpha(c: char)
  {
    'a' <= c <= 'z' || 'A' <= c <= 'Z'
  }

  /** `[A-Za-z_$]` */
  predicate IsIdentStart(c: char)
  {
    IsAlpha(c) || c == '_' || c == '$'
  }

  /** `[A-Za-z0-9_$]` */
  predicate IsIdentChar(c: char)
  {
    IsAlpha(c) || IsDigit(c) || c == '_' || c == '$'
  }

  /** How often `c` occurs in `t`. */
  function Count(t: seq<char>, c: char): (n: nat)
    ensures n <= |t|
  {
    if t == [] then 0 else Count(t[..|t| - 1], c) + (if t[|t| - 1] == c then 1 else 0)
  }

  /** The text `[A-Za-z_$][A-Za-z0-9_$]*`. */
  predicate IsIdentText(t: seq<char>)
  {
    |t| > 0 && IsIdentStart(t[0]) && forall k :: 0 <= k < |t| ==> IsIdentChar(t[k])
  }

  /** Digits and dots, at least one character, at most one dot. */
  predicate IsNumberText(t: seq<char>)
  {
    |t| > 0 && (forall k :: 0 <= k < |t| ==> IsDigit(t[k]) || t[k] == '.') && Count(t, '.') <= 1
  }

  /** Position of the first non-space character at or after `i`: the whitespace loop of getToken. */
  function SkipSpace(s: seq<char>, i: nat): (j: nat)
    requires i <= |s|
    ensures i <= j <= |s|
    ensures forall k :: i <= k < j ==> IsSpace(s[k])
    ensures j == |s| || !IsSpace(s[j])
    decreases |s| - i
  {
    if i < |s| && IsSpace(s[i]) then SkipSpace(s, i + 1) else i
  }

  /** Position of the first non-identifier character at or after `i`. */
  function IdentEnd(s: seq<char>, i: nat): (j: nat)
    requires i <= |s|
    ensures i <= j <= |s|
    ensures forall k :: i <= k < j ==> IsIdentChar(s[k])
    ensures j == |s| || !IsIdentChar(s[j])
    decreases |s| - i
  {
    if i < |s| && IsIdentChar(s[i]) then IdentEnd(s, i + 1) else i
  }

  /**
   * Where the number scan starting at `i` stops: it takes digits, and one
   * dot while `dot` (the source's counter) still allows it.
   */
  function NumberEnd(s: seq<char>, i: nat, dot: bool): (j: nat)
    requires i <= |s|
    ensures i <= j <= |s|
    ensures forall k :: i <= k < j ==> IsDigit(s[k]) || s[k] == '.'
    ensures Count(s[i..j], '.') <= (if dot then 1 else 0)
    ensures j == |s| || !(IsDigit(s[j]) || (s[j] == '.' && dot && Count(s[i..j], '.') == 0))
    decreases |s| - i
  {
    if i < |s| && IsDigit(s[i]) then
      var j := NumberEnd(s, i + 1, dot);
      CountCons(s[i..j], '.');
      assert s[i..j][1..] == s[i + 1..j];
      j
    else if i < |s| && s[i] == '.' && dot then
      var j := NumberEnd(s, i + 1, false);
      CountCons(s[i..j], '.');
      assert s[i..j][1..] == s[i + 1..j];
      j
    else
      assert s[i..i] == [];
      i
  }

  /** End of the number token whose first character is at `j`: a leading dot uses up the one dot allowed. */
  function NumberTokenEnd(s: seq<char>, j: nat): (e: nat)
    requires j < |s|
    ensures j < e <= |s|
  {
    NumberEnd(s, j + 1, s[j] != '.')
  }

  /** Counting from the front gives the same as counting from the back. */
  lemma {:induction false} CountCons(t: seq<char>, c: char)
    requires |t| > 0
    ensures Count(t, c) == (if t[0] == c then 1 else 0) + Count(t[1..], c)
  {
    if |t| > 1 {
      assert t[..|t| - 1][1..] == t[1..][..|t[1..]| - 1];
      CountCons(t[..|t| - 1], c);
    }
  }

  /** A character counted zero times does not occur. */
  lemma {:induction false} CountZero(t: seq<char>, c: char)
    requires Count(t, c) == 0
    ensures forall k :: 0 <= k < |t| ==> t[k] != c
  {
    if t != [] {
      CountZero(t[..|t| - 1], c);
      assert forall k :: 0 <= k < |t| - 1 ==> t[k] == t[..|t| - 1][k];
    }
  }

  /** Counting over a concatenation adds up. */
  lemma {:induction false} CountAppend(t: seq<char>, u: seq<char>, c: char)
    ensures Count(t + u, c) == Count(t, c) + Count(u, c)
    decreases |u|
  {
    if u == [] {
      assert t + u == t;
    } else {
      assert (t + u)[..|t + u| - 1] == t + u[..|u| - 1];
      CountAppend(t, u[..|u| - 1], c);
    }
  }

  /** The keyword check after an identifier scan. */
  function KeywordOrId(text: string): (t: Token)
    ensures t == TokenVar <==> text == "var"
    ensures t == TokenPrint <==> text == "$print"
    ensures t != TokenVar && t != TokenPrint ==> t == TokenId
  {
    if text == "var" then TokenVar else if text == "$print" then TokenPrint else TokenId
  }

  /** A token as `getToken` finds it: its kind, its text `s[start..end]` and the newlines skipped before it. */
  datatype Lexeme = Lexeme(token: Token, start: nat, end: nat, rows: nat)

  /**
   * Where a lexeme read from `i` can lie: after white space only (whose
   * line breaks it counts), at the end of the input exactly when it is the
   * end-of-file token, and never empty otherwise.
   */
  ghost predicate Placed(s: seq<char>, i: nat, lx: Lexeme)
    requires i <= |s|
  {
    && i <= lx.start <= lx.end <= |s|
    && (forall k :: i <= k < lx.start ==> IsSpace(s[k]))
    && lx.rows == Count(s[i..lx.start], '\n')
    && (lx.token == TokenEof <==> lx.start == |s|)
    && (lx.token == TokenEof ==> lx.end == |s|)
    && (lx.token != TokenEof ==> !IsSpace(s[lx.start]) && lx.start < lx.end)
    && lx.token != TokenString
  }

  /**
   * `getToken` reading from position `i` of the input `s`.  The reading
   * itself is `ScanBody`, reached through one layer of `ScanLayers` so that
   * proofs about the callers work from `Placed` and unfold the reading only
   * where they call `ScanUnfold`.
   */
  function Scan(s: seq<char>, i: nat): (lx: Lexeme)
    requires i <= |s|
    ensures Placed(s, i, lx)
  {
    ScanLayers(s, i, 1)
  }

  /** `ScanBody` behind `layers` recursive calls. */
  function ScanLayers(s: seq<char>, i: nat, layers: nat): (lx: Lexeme)
    requires i <= |s|
    ensures Placed(s, i, lx)
    decreases layers
  {
    if layers > 0 then ScanLayers(s, i, layers - 1) else ScanBody(s, i)
  }

  /** A proof that needs how `Scan` reads, not only where the token lies, calls this. */
  lemma ScanUnfold(s: seq<char>, i: nat)
    requires i <= |s|
    ensures Scan(s, i) == ScanBody(s, i)
  {
    assert ScanLayers(s, i, 1) == ScanLayers(s, i, 0);
  }

  /** Skip white space, then read one token from the first other character. */
  function ScanBody(s: seq<char>, i: nat): (lx: Lexeme)
    requires i <= |s|
    ensures Placed(s, i, lx)
  {
    var j := SkipSpace(s, i);
    var rows := Count(s[i..j], '\n');
    if j == |s| then Lexeme(TokenEof, j, j, rows)
    else
      var c := s[j];
      if c == '=' then Lexeme(TokenEqual, j, j + 1, rows)
      else if c == '+' then Lexeme(TokenPlus, j, j + 1, rows)
      else if c == '-' then Lexeme(TokenMinus, j, j + 1, rows)
      else if c == '*' then Lexeme(TokenStar, j, j + 1, rows)
      else if c == '/' then Lexeme(TokenSlash, j, j + 1, rows)
      else if c == ';' then Lexeme(TokenSemi, j, j + 1, rows)
      else if IsIdentStart(c) then
        var e := IdentEnd(s, j + 1);
        Lexeme(KeywordOrId(s[j..e]), j, e, rows)
      else if IsDigit(c) || c == '.' then
        Lexeme(TokenNum, j, NumberTokenEnd(s, j), rows)
      else if c == '(' then Lexeme(TokenLBracket, j, j + 1, rows)
      else if c == ')' then Lexeme(TokenRBracket, j, j + 1, rows)
      else Lexeme(TokenUnknown, j, j + 1, rows)
  }

  /** The token kind of a one-character token. */
  function PunctToken(c: char): Option<Token>
  {
    if c == '=' then Some(TokenEqual)
    else if c == '+' then Some(TokenPlus)
    else if c == '-' then Some(TokenMinus)
    else if c == '*' then Some(TokenStar)
    else if c == '/' then Some(TokenSlash)
    else if c == ';' then Some(TokenSemi)
    else if c == '(' then Some(TokenLBracket)
    else if c == ')' then Some(TokenRBracket)
    else None
  }

  /** Each of `= + - * / ; ( )` is a token of its own, one character long. */
  lemma ScanPunctuation(s: seq<char>, i: nat)
    requires i <= |s|
    ensures var lx := Scan(s, i);
            lx.start < |s| && PunctToken(s[lx.start]).Some? ==>
              lx.token == PunctToken(s[lx.start]).value && lx.end == lx.start + 1
  {
    ScanUnfold(s, i);
  }

  /** A character that starts no token kind is one `TOKEN_UNKNOWN` character. */
  lemma ScanUnknown(s: seq<char>, i: nat)
    requires i <= |s|
    ensures var lx := Scan(s, i);
            lx.token == TokenUnknown <==>
              (lx.start < |s| && PunctToken(s[lx.start]).None? && !IsIdentStart(s[lx.start])
               && !IsDigit(s[lx.start]) && s[lx.start] != '.')
    ensures var lx := Scan(s, i); lx.token == TokenUnknown ==> lx.end == lx.start + 1
  {
    ScanUnfold(s, i);
  }

  /**
   * An identifier token: its text matches `[A-Za-z_$][A-Za-z0-9_$]*`, the
   * character after it is not an identifier character (it is left for the
   * next scan), and the kind is VAR for "var", PRINT for "$print" and ID
   * otherwise.
   */
  lemma ScanIdentifier(s: seq<char>, i: nat)
    requires i <= |s|
    ensures var lx := Scan(s, i);
            lx.token in {TokenId, TokenVar, TokenPrint} <==> (lx.start < |s| && IsIdentStart(s[lx.start]))
    ensures var lx := Scan(s, i);
            lx.token in {TokenId, TokenVar, TokenPrint} ==>
              && IsIdentText(s[lx.start..lx.end])
              && (lx.end == |s| || !IsIdentChar(s[lx.end]))
              && lx.token == KeywordOrId(s[lx.start..lx.end])
  {
    ScanUnfold(s, i);
  }

  /**
   * A number token starts with a digit or a dot, holds only digits and at
   * most one dot, and stops before a character that could not extend it.
   */
  lemma ScanNumber(s: seq<char>, i: nat)
    requires i <= |s|
    ensures var lx := Scan(s, i);
            lx.token == TokenNum <==> (lx.start < |s| && (IsDigit(s[lx.start]) || s[lx.start] == '.'))
    ensures var lx := Scan(s, i);
            lx.token == TokenNum ==>
              && IsNumberText(s[lx.start..lx.end])
              && (lx.end == |s| || !(IsDigit(s[lx.end]) || (s[lx.end] == '.' && Count(s[lx.start..lx.end], '.') == 0)))
  {
    var lx := Scan(s, i);
    ScanNumberShape(s, i);
    if lx.token == TokenNum {
      NumberText(s, lx.start);
    }
  }

  /** Which branch of `Scan` produces a number, and where it ends. */
  lemma ScanNumberShape(s: seq<char>, i: nat)
    requires i <= |s|
    ensures var lx := Scan(s, i);
            lx.token == TokenNum <==> (lx.start < |s| && (IsDigit(s[lx.start]) || s[lx.start] == '.'))
    ensures var lx := Scan(s, i);
            lx.token == TokenNum ==> lx.end == NumberTokenEnd(s, lx.start)
  {
    ScanUnfold(s, i);
  }

  /** The number scan from a digit or a dot at `j` covers a number text. */
  lemma NumberText(s: seq<char>, j: nat)
    requires j < |s| && (IsDigit(s[j]) || s[j] == '.')
    ensures var e := NumberTokenEnd(s, j);
            && IsNumberText(s[j..e])
            && (e == |s| || !(IsDigit(s[e]) || (s[e] == '.' && Count(s[j..e], '.') == 0)))
  {
    var e := NumberTokenEnd(s, j);
    CountCons(s[j..e], '.');
    assert s[j..e][1..] == s[j + 1..e];
  }

  // ---------------------------------------------------------------------------
  // Numeric value of a literal (`stod`), on exact decimals.

  function DigitValue(c: char): nat
    requires IsDigit(c)
  {
    (c as int - '0' as int) as nat
  }

  /** The value of a string of decimal digits (0 for the empty string). */
  function DigitsValue(ds: seq<char>): nat
    requires forall k :: 0 <= k < |ds| ==> IsDigit(ds[k])
  {
    if ds == [] then 0 else 10 * DigitsValue(ds[..|ds| - 1]) + DigitValue(ds[|ds| - 1])
  }

  function Pow10(n: nat): (r: nat)
    ensures r >= 1
  {
    if n == 0 then 1 else 10 * Pow10(n - 1)
  }

  /** Index of the first dot in `t`, or |t| if there is none. */
  function DotIndex(t: seq<char>): (d: nat)
    ensures d <= |t|
    ensures forall k :: 0 <= k < d ==> t[k] != '.'
    ensures d < |t| ==> t[d] == '.'
  {
    if t == [] then 0 else if t[0] == '.' then 0 else 1 + DotIndex(t[1..])
  }

  /**
   * `stod(text)` on what the number scan accepts: the exact decimal value,
   * or None when the text has no digit at all (`stod(".")` throws).
   */
  function DecimalValue(text: seq<char>): (r: Option<real>)
    requires IsNumberText(text)
    ensures r.None? <==> text == "."
  {
    var d := DotIndex(text);
    if d == |text| then
      Some(DigitsValue(text) as real)
    else if |text| == 1 then None
    else
      var whole := text[..d];
      var frac := text[d + 1..];
      DotSplit(text, whole, frac);
      Some(Fixed(DigitsValue(whole), DigitsValue(frac), |frac|, 2))
  }

  /** The digits of a number text, with its dot (if any) left out. */
  function DropDot(text: seq<char>): (ds: seq<char>)
    requires IsNumberText(text)
    ensures forall k :: 0 <= k < |ds| ==> IsDigit(ds[k])
  {
    var d := DotIndex(text);
    if d == |text| then text
    else
      DotSplit(text, text[..d], text[d + 1..]);
      text[..d] + text[d + 1..]
  }

  /** How many digits follow the dot of a number text (none if it has no dot). */
  function Places(text: seq<char>): nat
  {
    var d := DotIndex(text);
    if d == |text| then 0 else |text| - d - 1
  }

  /**
   * The value `stod` gives a number text: the integer its digits spell once
   * the dot is dropped, divided by 10 once per digit after the dot, so
   * "3.14" is 314 / 10^2 and "12." is 12.
   */
  lemma DecimalValueRatio(text: seq<char>)
    requires IsNumberText(text) && text != "."
    ensures DecimalValue(text) == Some(DigitsValue(DropDot(text)) as real / Pow10(Places(text)) as real)
  {
    var d := DotIndex(text);
    if d < |text| {
      var whole := text[..d];
      var frac := text[d + 1..];
      DotSplit(text, whole, frac);
      assert Places(text) == |frac| && DropDot(text) == whole + frac;
      var n := DigitsValue(whole + frac);
      DigitsAppend(whole, frac);
      FixedRatio(DigitsValue(whole), DigitsValue(frac), |frac|, n);
      assert DecimalValue(text) == Some(Fixed(DigitsValue(whole), DigitsValue(frac), |frac|, 2));
    } else {
      assert Places(text) == 0 && DropDot(text) == text && Pow10(0) == 1;
      var n := DigitsValue(text) as real;
      assert n / 1.0 == n;
      assert DecimalValue(text) == Some(n);
    }
  }

  /** `whole + frac / 10^places` is `whole * 10^places + frac` over `10^places`. */
  lemma FixedRatio(whole: nat, frac: nat, places: nat, n: nat)
    requires n == whole * Pow10(places) + frac
    ensures Fixed(whole, frac, places, 2) == n as real / Pow10(places) as real
  {
    var w := whole as real;
    var f := frac as real;
    var p := Pow10(places) as real;
    assert Fixed(whole, frac, places, 2) == Fixed(whole, frac, places, 1) == w + f / p;
    assert w + f / p == (w * p + f) / p;
  }

  /** Digits written after digits: the first part's value shifted by one place per digit of the second. */
  lemma {:induction false} DigitsAppend(a: seq<char>, b: seq<char>)
    requires forall k :: 0 <= k < |a| ==> IsDigit(a[k])
    requires forall k :: 0 <= k < |b| ==> IsDigit(b[k])
    ensures DigitsValue(a + b) == DigitsValue(a) * Pow10(|b|) + DigitsValue(b)
    decreases |b|
  {
    if b == [] {
      assert a + b == a;
    } else {
      var b' := b[..|b| - 1];
      assert (a + b)[..|a + b| - 1] == a + b' && (a + b)[|a + b| - 1] == b[|b| - 1];
      DigitsAppend(a, b');
      ShiftOnce(DigitsValue(a), Pow10(|b'|));
    }
  }

  /** One more place: ten times `x` shifted by `p` is `x` shifted by `10 * p`. */
  lemma ShiftOnce(x: nat, p: nat)
    ensures 10 * (x * p) == x * (10 * p)
  {
  }

  /** `stod("3.14")` is 3.14. */
  lemma DecimalValueExample()
    ensures IsNumberText("3.14") && DecimalValue("3.14") == Some(3.14)
  {
    var text := "3.14";
    assert text[..3] == "3.1" && "3.1"[..2] == "3." && "3."[..1] == "3" && "3"[..0] == [];
    assert Count(text, '.') == 1;
    assert DotIndex(text) == 1;
    DecimalValueRatio(text);
    assert DropDot(text) == "314";
    assert DigitsValue("314") == 314;
  }

  /** Around the one dot of a number text there are only digits. */
  lemma DotSplit(text: seq<char>, whole: seq<char>, frac: seq<char>)
    requires IsNumberText(text) && DotIndex(text) < |text|
    requires whole == text[..DotIndex(text)] && frac == text[DotIndex(text) + 1..]
    ensures forall k :: 0 <= k < |whole| ==> IsDigit(whole[k])
    ensures forall k :: 0 <= k < |frac| ==> IsDigit(frac[k])
  {
    var d := DotIndex(text);
    NoSecondDot(text, d);
    DigitsSlice(text, 0, d, whole);
    DigitsSlice(text, d + 1, |text|, frac);
  }

  /** A slice of a stretch of digits is digits. */
  lemma DigitsSlice(t: seq<char>, lo: nat, hi: nat, part: seq<char>)
    requires lo <= hi <= |t| && part == t[lo..hi]
    requires forall k :: lo <= k < hi ==> IsDigit(t[k])
    ensures forall k :: 0 <= k < |part| ==> IsDigit(part[k])
  {
    forall k | 0 <= k < |part|
      ensures IsDigit(part[k])
    {
      assert part[k] == t[lo + k];
    }
  }

  /** A text with at most one dot, which is at `d`, has none after `d`. */
  lemma NoSecondDot(t: seq<char>, d: nat)
    requires d < |t| && t[d] == '.' && Count(t, '.') <= 1
    ensures forall k :: d < k < |t| ==> t[k] != '.'
  {
    var tail := t[d..];
    CountAppend(t[..d], tail, '.');
    assert t[..d] + tail == t;
    CountCons(tail, '.');
    CountZero(tail[1..], '.');
    forall k | d < k < |t|
      ensures t[k] != '.'
    {
      assert t[k] == tail[1..][k - d - 1];
    }
  }

  /**
   * `whole + frac / 10^places`, reached through `layers` calls: the extra
   * layer keeps the quotient of unknown numbers out of the proofs about the
   * scanner, which never need it.
   */
  function Fixed(whole: nat, frac: nat, places: nat, layers: nat): real
    decreases layers
  {
    if layers > 0 then Fixed(whole, frac, places, layers - 1)
    else whole as real + frac as real / Pow10(places) as real
  }

  /** The decimal spelling of a natural number, most significant digit first. */
  function DecimalString(n: nat): (t: seq<char>)
    ensures |t| > 0 && forall k :: 0 <= k < |t| ==> IsDigit(t[k])
  {
    if n < 10 then ['0' + n as char] else DecimalString(n / 10) + ['0' + (n % 10) as char]
  }

  /** Reading back the spelling of `n` gives `n`. */
  lemma {:induction false} DigitsOfDecimalString(n: nat)
    ensures DigitsValue(DecimalString(n)) == n
  {
    var t := DecimalString(n);
    if n >= 10 {
      assert t[..|t| - 1] == DecimalString(n / 10);
      DigitsOfDecimalString(n / 10);
    }
  }

  /** A dot-free text has no dot in it. */
  lemma {:induction false} NoDotCount(t: seq<char>)
    requires forall k :: 0 <= k < |t| ==> IsDigit(t[k])
    ensures Count(t, '.') == 0
  {
    if t != [] {
      NoDotCount(t[..|t| - 1]);
    }
  }

  /** The number scan from `i` over a run of digits stops exactly where the digits stop. */
  lemma {:induction false} NumberEndOverDigits(s: seq<char>, i: nat, e: nat, dot: bool)
    requires i <= e <= |s|
    requires forall k :: i <= k < e ==> IsDigit(s[k])
    requires e == |s| || (!IsDigit(s[e]) && s[e] != '.')
    ensures NumberEnd(s, i, dot) == e
    decreases e - i
  {
    if i < e {
      NumberEndOverDigits(s, i + 1, e, dot);
    }
  }

  /** The identifier scan from `i` over a run of identifier characters stops exactly where they stop. */
  lemma {:induction false} IdentEndOverRun(s: seq<char>, i: nat, e: nat)
    requires i <= e <= |s|
    requires forall k :: i <= k < e ==> IsIdentChar(s[k])
    requires e == |s| || !IsIdentChar(s[e])
    ensures IdentEnd(s, i) == e
    decreases e - i
  {
    if i < e {
      IdentEndOverRun(s, i + 1, e);
    }
  }

  /**
   * Round trip for numbers: scanning the decimal spelling of `n`, followed by
   * anything that cannot continue a number, yields one NUM token spanning
   * exactly that spelling, whose value is `n`.
   */
  lemma ScanDecimalLiteral(n: nat, rest: seq<char>)
    requires rest == [] || (!IsDigit(rest[0]) && rest[0] != '.')
    ensures var s := DecimalString(n) + rest;
            var lx := Scan(s, 0);
            && lx == Lexeme(TokenNum, 0, |DecimalString(n)|, 0)
            && IsNumberText(s[lx.start..lx.end])
            && DecimalValue(s[lx.start..lx.end]) == Some(n as real)
  {
    var t := DecimalString(n);
    var s := t + rest;
    ScanUnfold(s, 0);
    assert SkipSpace(s, 0) == 0;
    assert s[0..0] == [];
    NumberEndOverDigits(s, 1, |t|, true);
    assert s[0..|t|] == t;
    NoDotCount(t);
    DigitsOfDecimalString(n);
    var d := DotIndex(t);
    assert d == |t|;
  }

  /**
   * Round trip for identifiers: scanning a valid name that is not a keyword,
   * followed by anything that cannot continue it, yields one ID token whose
   * text is the name.
   */
  lemma ScanIdentifierLiteral(name: seq<char>, rest: seq<char>)
    requires IsIdentText(name) && name != "var" && name != "$print"
    requires rest == [] || !IsIdentChar(rest[0])
    ensures var s := name + rest;
            var lx := Scan(s, 0);
            lx == Lexeme(TokenId, 0, |name|, 0) && s[lx.start..lx.end] == name
  {
    var s := name + rest;
    ScanUnfold(s, 0);
    assert !IsSpace(s[0]);
    assert SkipSpace(s, 0) == 0;
    assert s[0..0] == [];
    IdentEndOverRun(s, 1, |name|);
    assert s[0..|name|] == name;
  }
}
