/**
 * Rendering a document number from the pattern of its form. The fixed tokens are replaced one after
 * the other in the text, the sequence tokens last, so what one replacement inserts is scanned again.
 */
module DocNumberFormat {
  import opened Wrappers

  // ── Decimal numerals ──

  predicate IsDigit(c: char) {
    '0' <= c <= '9'
  }

  function Digits(n: nat): (s: string)
    ensures s != []
  {
    if n < 10 then [('0' as int + n) as char] else Digits(n / 10) + [('0' as int + n % 10) as char]
  }

  function PadStart(s: string, width: nat): (r: string)
    ensures |r| == if |s| < width then width else |s|
  {
    if |s| < width then seq(width - |s|, i => '0') + s else s
  }

  /** The number a numeral stands for. */
  function Value(s: string): nat {
    if s == [] then 0
    else Value(s[..|s| - 1]) * 10 + (if IsDigit(s[|s| - 1]) then s[|s| - 1] as int - '0' as int else 0)
  }

  // ── The tokens ──

  predicate StartsWith(s: string, prefix: string) {
    |prefix| <= |s| && s[..|prefix|] == prefix
  }

  /** Every occurrence of a token, from the left, replaced by the same text. */
  function ReplaceAll(s: string, token: string, text: string): string
    requires token != []
    decreases |s|
  {
    if s == [] then []
    else if StartsWith(s, token) then text + ReplaceAll(s[|token|..], token, text)
    else [s[0]] + ReplaceAll(s[1..], token, text)
  }

  function DigitRun(s: string): (n: nat)
    ensures n <= |s|
  {
    if s == [] || !IsDigit(s[0]) then 0 else 1 + DigitRun(s[1..])
  }

  datatype SeqToken = SeqToken(length: nat, width: Option<nat>)

  /** A sequence token at the start of the text: the plain one, or one with a width. */
  function MatchSeq(s: string): (m: Option<SeqToken>)
    ensures m.Some? ==> 5 <= m.value.length <= |s| && s[0] == '{'
  {
    if StartsWith(s, "{SEQ}") then Some(SeqToken(5, None))
    else if StartsWith(s, "{SEQ:") then
      var n := DigitRun(s[5..]);
      if n > 0 && 5 + n < |s| && s[5 + n] == '}' then Some(SeqToken(6 + n, Some(Value(s[5..5 + n])))) else None
    else None
  }

  function RenderToken(width: Option<nat>, number: nat): string {
    match width
    case None => Digits(number)
    case Some(w) => PadStart(Digits(number), w)
  }

  function RenderSeq(s: string, number: nat): string
    decreases |s|
  {
    if s == [] then []
    else
      match MatchSeq(s)
      case Some(token) => RenderToken(token.width, number) + RenderSeq(s[token.length..], number)
      case None => [s[0]] + RenderSeq(s[1..], number)
  }

  predicate HasSeq(s: string) {
    s != [] && (MatchSeq(s).Some? || HasSeq(s[1..]))
  }

  function LastTwo(s: string): string {
    if |s| <= 2 then s else s[|s| - 2..]
  }

  /** The pattern once its date and abbreviation tokens are replaced. */
  function FixedText(pattern: string, year: nat, month: nat, abbreviation: string, category: string): string {
    var a := ReplaceAll(pattern, "{YYYY}", Digits(year));
    var b := ReplaceAll(a, "{YY}", LastTwo(Digits(year)));
    var c := ReplaceAll(b, "{MM}", PadStart(Digits(month), 2));
    var d := ReplaceAll(c, "{CATEGORY}", category);
    ReplaceAll(d, "{ABBR}", abbreviation)
  }

  function RenderDocNumber(pattern: string, year: nat, month: nat, number: nat, abbreviation: string, category: string): string {
    RenderSeq(FixedText(pattern, year, month, abbreviation, category), number)
  }

  // ── A rendered number tells its sequence number ──

  lemma {:induction false} DigitsValue(n: nat)
    ensures Value(Digits(n)) == n
  {
    if n < 10 {
      assert Value([]) == 0;
    } else {
      DigitsValue(n / 10);
      var s := Digits(n);
      assert s[..|s| - 1] == Digits(n / 10);
    }
  }

  lemma {:induction false} ZerosValue(k: nat, s: string)
    ensures Value(seq(k, i => '0') + s) == Value(s)
    decreases |s|, k
  {
    var zeros := seq(k, i => '0');
    var padded := zeros + s;
    if s != [] {
      ZerosValue(k, s[..|s| - 1]);
      assert padded[..|padded| - 1] == zeros + s[..|s| - 1];
    } else if k > 0 {
      ZerosValue(k - 1, []);
      assert padded[..|padded| - 1] == seq(k - 1, i => '0') + [];
    }
  }

  lemma TokenInjective(width: Option<nat>, a: nat, b: nat)
    requires RenderToken(width, a) == RenderToken(width, b)
    ensures a == b
  {
    DigitsValue(a);
    DigitsValue(b);
    if width.Some? {
      var da, db := Digits(a), Digits(b);
      if |da| < width.value { ZerosValue(width.value - |da|, da); }
      if |db| < width.value { ZerosValue(width.value - |db|, db); }
    }
  }

  lemma {:induction false} DigitsLonger(a: nat, b: nat)
    requires a <= b
    ensures |Digits(a)| <= |Digits(b)|
    decreases b
  {
    if a >= 10 { DigitsLonger(a / 10, b / 10); }
  }

  lemma TokenLonger(width: Option<nat>, a: nat, b: nat)
    requires a <= b
    ensures |RenderToken(width, a)| <= |RenderToken(width, b)|
  {
    DigitsLonger(a, b);
  }

  /** A later number never renders shorter. */
  lemma {:induction false} RenderLonger(s: string, a: nat, b: nat)
    requires a <= b
    ensures |RenderSeq(s, a)| <= |RenderSeq(s, b)|
    decreases |s|
  {
    if s != [] {
      match MatchSeq(s)
      case Some(token) =>
        TokenLonger(token.width, a, b);
        RenderLonger(s[token.length..], a, b);
      case None =>
        RenderLonger(s[1..], a, b);
    }
  }

  lemma SplitEqual(p: string, q: string, s: string, t: string)
    requires p + s == q + t && |p| <= |q| && |s| <= |t|
    ensures p == q && s == t
  {
    assert |p| + |s| == |p + s| == |q + t| == |q| + |t|;
    assert p == (p + s)[..|p|] && q == (q + t)[..|q|];
    assert s == (p + s)[|p|..] && t == (q + t)[|q|..];
  }

  lemma {:induction false} RenderInjectiveFrom(s: string, a: nat, b: nat)
    requires a <= b && HasSeq(s) && RenderSeq(s, a) == RenderSeq(s, b)
    ensures a == b
    decreases |s|
  {
    match MatchSeq(s)
    case Some(token) =>
      var rest := s[token.length..];
      TokenLonger(token.width, a, b);
      RenderLonger(rest, a, b);
      SplitEqual(RenderToken(token.width, a), RenderToken(token.width, b), RenderSeq(rest, a), RenderSeq(rest, b));
      TokenInjective(token.width, a, b);
    case None =>
      assert RenderSeq(s[1..], a) == RenderSeq(s, a)[1..];
      RenderInjectiveFrom(s[1..], a, b);
  }

  lemma {:induction false} RenderConstant(s: string, a: nat, b: nat)
    requires !HasSeq(s)
    ensures RenderSeq(s, a) == RenderSeq(s, b)
  {
    if s != [] { RenderConstant(s[1..], a, b); }
  }

  /** With pattern, date and abbreviations fixed, two sequence numbers render alike exactly when they
      are equal or no sequence token is left in the text; several tokens of any widths are fine. */
  lemma RenderInjectiveIff(s: string, a: nat, b: nat)
    ensures RenderSeq(s, a) == RenderSeq(s, b) <==> a == b || !HasSeq(s)
  {
    if HasSeq(s) && RenderSeq(s, a) == RenderSeq(s, b) {
      if a <= b { RenderInjectiveFrom(s, a, b); } else { RenderInjectiveFrom(s, b, a); }
    } else if !HasSeq(s) {
      RenderConstant(s, a, b);
    }
  }

  // ── Replacing the other tokens keeps the sequence tokens ──

  lemma {:induction false} HasSeqPrefix(prefix: string, s: string)
    requires HasSeq(s)
    ensures HasSeq(prefix + s)
  {
    if prefix == [] {
      assert prefix + s == s;
    } else {
      HasSeqPrefix(prefix[1..], s);
      assert (prefix + s)[1..] == prefix[1..] + s;
    }
  }

  predicate NoBrace(s: string) {
    forall k :: 0 <= k < |s| ==> s[k] != '{'
  }

  /** A token of the form {XYZ}: its one opening brace comes first, and no S follows it. */
  predicate PlainToken(token: string) {
    |token| >= 2 && token[1] != 'S' && NoBrace(token[1..])
  }

  lemma {:induction false} NoSeqBefore(s: string, n: nat)
    requires n <= |s| && NoBrace(s[..n]) && HasSeq(s)
    ensures HasSeq(s[n..])
    decreases n
  {
    if n == 0 {
      assert s[0..] == s;
    } else {
      assert s[0] == s[..n][0];
      assert s[1..][..n - 1] == s[..n][1..];
      NoSeqBefore(s[1..], n - 1);
      assert s[1..][n - 1..] == s[n..];
    }
  }

  lemma {:induction false} DigitRunLocal(s: string, t: string, n: nat)
    requires DigitRun(s) == n < |s| && n < |t| && s[..n + 1] == t[..n + 1]
    ensures DigitRun(t) == n
    decreases n
  {
    assert s[0] == s[..n + 1][0] && t[0] == t[..n + 1][0];
    if n > 0 {
      assert s[1..][..n] == s[..n + 1][1..] && t[1..][..n] == t[..n + 1][1..];
      DigitRunLocal(s[1..], t[1..], n - 1);
    }
  }

  /** A match depends only on the characters it covers. */
  lemma MatchLocal(s: string, t: string)
    requires MatchSeq(s).Some? && MatchSeq(s).value.length <= |t|
    requires s[..MatchSeq(s).value.length] == t[..MatchSeq(s).value.length]
    ensures MatchSeq(t).Some?
  {
    var length := MatchSeq(s).value.length;
    assert s[..5] == s[..length][..5] && t[..5] == t[..length][..5];
    if !StartsWith(s, "{SEQ}") {
      var n := DigitRun(s[5..]);
      assert s[5..][..n + 1] == s[..length][5..] && t[5..][..n + 1] == t[..length][5..];
      DigitRunLocal(s[5..], t[5..], n);
      assert s[5 + n] == s[..length][5 + n] && t[5 + n] == t[..length][5 + n];
    }
  }

  lemma {:induction false} DigitRunDigits(s: string, k: nat)
    requires k < DigitRun(s)
    ensures IsDigit(s[k])
  {
    if k > 0 { DigitRunDigits(s[1..], k - 1); }
  }

  /** No opening brace inside a sequence token. */
  lemma MatchNoBrace(s: string, k: nat)
    requires MatchSeq(s).Some? && 1 <= k < MatchSeq(s).value.length
    ensures s[k] != '{'
  {
    assert k < 5 ==> s[k] == s[..5][k];
    if k >= 5 && k < 5 + DigitRun(s[5..]) {
      DigitRunDigits(s[5..], k - 5);
    }
  }

  lemma FirstCharacter(s: string, token: string)
    requires token != []
    ensures StartsWith(s, token) ==> s[0] == token[0]
  {
    if StartsWith(s, token) { assert s[0] == s[..|token|][0]; }
  }

  lemma SecondCharacter(s: string)
    ensures MatchSeq(s).Some? ==> s[1] == 'S'
  {
    if MatchSeq(s).Some? { assert s[1] == s[..5][1]; }
  }

  lemma {:induction false} ReplaceKeeps(s: string, token: string, text: string, n: nat)
    requires PlainToken(token) && token[0] == '{' && n <= |s| && NoBrace(s[..n])
    ensures |ReplaceAll(s, token, text)| >= n && ReplaceAll(s, token, text)[..n] == s[..n]
    decreases n
  {
    if n > 0 {
      assert s[0] == s[..n][0];
      FirstCharacter(s, token);
      assert s[1..][..n - 1] == s[..n][1..];
      ReplaceKeeps(s[1..], token, text, n - 1);
      assert s[..n] == [s[0]] + s[1..][..n - 1];
    }
  }

  lemma SeqKeptHere(s: string, token: string, text: string)
    requires PlainToken(token) && token[0] == '{' && !StartsWith(s, token) && MatchSeq(s).Some?
    ensures HasSeq(ReplaceAll(s, token, text))
  {
    var length := MatchSeq(s).value.length;
    var inside := s[1..][..length - 1];
    forall k | 0 <= k < |inside| ensures inside[k] != '{' { MatchNoBrace(s, k + 1); }
    ReplaceKeeps(s[1..], token, text, length - 1);
    var t := ReplaceAll(s, token, text);
    assert s[..length] == [s[0]] + s[1..][..length - 1];
    assert t[..length] == [s[0]] + ReplaceAll(s[1..], token, text)[..length - 1];
    MatchLocal(s, t);
  }

  lemma SeqAfterToken(s: string, token: string)
    requires PlainToken(token) && StartsWith(s, token) && HasSeq(s)
    ensures HasSeq(s[|token|..])
  {
    var n := |token|;
    assert s[1] == s[..n][1] == token[1];
    SecondCharacter(s);
    assert s[1..][..n - 1] == s[..n][1..] == token[1..];
    NoSeqBefore(s[1..], n - 1);
    assert s[1..][n - 1..] == s[n..];
  }

  lemma {:induction false} SeqKept(s: string, token: string, text: string)
    requires PlainToken(token) && token[0] == '{' && HasSeq(s)
    ensures HasSeq(ReplaceAll(s, token, text))
    decreases |s|
  {
    if StartsWith(s, token) {
      SeqAfterToken(s, token);
      SeqKept(s[|token|..], token, text);
      HasSeqPrefix(text, ReplaceAll(s[|token|..], token, text));
    } else if MatchSeq(s).Some? {
      SeqKeptHere(s, token, text);
    } else {
      SeqKept(s[1..], token, text);
      HasSeqPrefix([s[0]], ReplaceAll(s[1..], token, text));
    }
  }

  /** A pattern with a sequence token still has one after the other replacements, whatever the
      abbreviations are. */
  lemma PatternKeepsSeq(pattern: string, year: nat, month: nat, abbreviation: string, category: string)
    requires HasSeq(pattern)
    ensures HasSeq(FixedText(pattern, year, month, abbreviation, category))
  {
    var a := ReplaceAll(pattern, "{YYYY}", Digits(year));
    SeqKept(pattern, "{YYYY}", Digits(year));
    var b := ReplaceAll(a, "{YY}", LastTwo(Digits(year)));
    SeqKept(a, "{YY}", LastTwo(Digits(year)));
    var c := ReplaceAll(b, "{MM}", PadStart(Digits(month), 2));
    SeqKept(b, "{MM}", PadStart(Digits(month), 2));
    var d := ReplaceAll(c, "{CATEGORY}", category);
    SeqKept(c, "{CATEGORY}", category);
    SeqKept(d, "{ABBR}", abbreviation);
  }

  /** For a pattern with a sequence token, the rendered number is injective in the sequence number. */
  lemma DocNumberInjective(pattern: string, year: nat, month: nat, a: nat, b: nat, abbreviation: string, category: string)
    requires HasSeq(pattern)
    requires RenderDocNumber(pattern, year, month, a, abbreviation, category) ==
             RenderDocNumber(pattern, year, month, b, abbreviation, category)
    ensures a == b
  {
    PatternKeepsSeq(pattern, year, month, abbreviation, category);
    RenderInjectiveIff(FixedText(pattern, year, month, abbreviation, category), a, b);
  }
}
