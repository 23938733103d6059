/** What a number pattern means: each token stands for its own value, in its own place. */
module DocNumberMeaning {
  import opened Wrappers
  import opened DocNumberFormat

  /** A piece of a pattern; the width of a padded sequence is the numeral written in its token. */
  datatype Piece =
    | Plain(text: string)
    | Year | ShortYear | Month | Category | Abbreviation
    | Sequence
    | PaddedSequence(numeral: string)

  /** What the tokens stand for. */
  datatype Values = Values(year: nat, month: nat, category: string, abbreviation: string)

  function Written(p: Piece): string {
    match p
    case Plain(text) => text
    case Year => "{YYYY}"
    case ShortYear => "{YY}"
    case Month => "{MM}"
    case Category => "{CATEGORY}"
    case Abbreviation => "{ABBR}"
    case Sequence => "{SEQ}"
    case PaddedSequence(numeral) => "{SEQ:" + (numeral + "}")
  }

  function PatternOf(pieces: seq<Piece>): string {
    if pieces == [] then [] else Written(pieces[0]) + PatternOf(pieces[1..])
  }

  /** The value of a piece; that of a sequence is the number, padded to its width. */
  function Meaning(p: Piece, v: Values, number: nat): string {
    match p
    case Plain(text) => text
    case Year => Digits(v.year)
    case ShortYear => LastTwo(Digits(v.year))
    case Month => PadStart(Digits(v.month), 2)
    case Category => v.category
    case Abbreviation => v.abbreviation
    case Sequence => Digits(number)
    case PaddedSequence(numeral) => PadStart(Digits(number), Value(numeral))
  }

  function MeaningOf(pieces: seq<Piece>, v: Values, number: nat): string {
    if pieces == [] then [] else Meaning(pieces[0], v, number) + MeaningOf(pieces[1..], v, number)
  }

  predicate AllDigits(s: string) {
    forall k :: 0 <= k < |s| ==> IsDigit(s[k])
  }

  predicate WellFormed(p: Piece) {
    match p
    case Plain(text) => NoBrace(text)
    case PaddedSequence(numeral) => numeral != [] && AllDigits(numeral)
    case _ => true
  }

  predicate AllWellFormed(pieces: seq<Piece>) {
    forall k :: 0 <= k < |pieces| ==> WellFormed(pieces[k])
  }

  // ── One replacement ──

  /** A token of date or abbreviation. */
  predicate IsFixed(p: Piece) {
    !p.Plain? && !p.Sequence? && !p.PaddedSequence?
  }

  function Fill(pieces: seq<Piece>, token: Piece, value: string): (r: seq<Piece>)
    ensures |r| == |pieces|
    ensures forall k :: 0 <= k < |pieces| ==> r[k] == if pieces[k] == token then Plain(value) else pieces[k]
  {
    seq(|pieces|, k requires 0 <= k < |pieces| => if pieces[k] == token then Plain(value) else pieces[k])
  }

  lemma {:induction false} ReplaceAfterPlain(text: string, rest: string, token: string, value: string)
    requires NoBrace(text) && token != [] && token[0] == '{'
    ensures ReplaceAll(text + rest, token, value) == text + ReplaceAll(rest, token, value)
    decreases |text|
  {
    if text == [] {
      assert text + rest == rest;
    } else {
      FirstCharacter(text + rest, token);
      assert (text + rest)[1..] == text[1..] + rest;
      ReplaceAfterPlain(text[1..], rest, token, value);
    }
  }

  /** A place where two tokens differ. */
  function Differs(p: Piece, q: Piece): nat {
    if (p.Year? || p.ShortYear?) && (q.Year? || q.ShortYear?) then 3 else 1
  }

  lemma TokensDiffer(p: Piece, token: Piece)
    requires !p.Plain? && IsFixed(token) && p != token
    ensures var k := Differs(p, token);
            k < |Written(p)| && k < |Written(token)| && Written(p)[k] != Written(token)[k]
  {
  }

  lemma TokenShape(p: Piece)
    requires !p.Plain? && WellFormed(p)
    ensures |Written(p)| >= 2 && Written(p)[0] == '{' && NoBrace(Written(p)[1..])
  {
    if p.PaddedSequence? {
      var w := Written(p);
      assert w == "{SEQ:" + p.numeral + "}";
      forall k | 1 <= k < |w| ensures w[k] != '{' {
        if 5 <= k < |w| - 1 { assert w[k] == p.numeral[k - 5]; }
      }
    }
  }

  lemma NotAtOther(p: Piece, token: Piece, rest: string)
    requires !p.Plain? && IsFixed(token) && p != token
    ensures !StartsWith(Written(p) + rest, Written(token))
  {
    TokensDiffer(p, token);
    var s, t, k := Written(p) + rest, Written(token), Differs(p, token);
    assert |t| <= |s| ==> s[..|t|][k] == s[k] == Written(p)[k];
  }

  lemma ReplaceAtOther(p: Piece, token: Piece, rest: string, value: string)
    requires !p.Plain? && WellFormed(p) && IsFixed(token) && p != token
    ensures ReplaceAll(Written(p) + rest, Written(token), value) == Written(p) + ReplaceAll(rest, Written(token), value)
  {
    var w, t := Written(p), Written(token);
    TokenShape(p);
    NotAtOther(p, token, rest);
    assert (w + rest)[1..] == w[1..] + rest;
    assert t[0] == '{' by { TokenShape(token); }
    ReplaceAfterPlain(w[1..], rest, t, value);
    assert w == [w[0]] + w[1..];
  }

  lemma ReplaceAtToken(token: string, rest: string, value: string)
    requires token != []
    ensures ReplaceAll(token + rest, token, value) == value + ReplaceAll(rest, token, value)
  {
    assert (token + rest)[..|token|] == token && (token + rest)[|token|..] == rest;
    assert token + rest != [];
  }

  /** Replacing a token in the text is replacing the pieces that are that token. */
  lemma {:induction false} ReplaceIsFill(pieces: seq<Piece>, token: Piece, value: string)
    requires AllWellFormed(pieces) && IsFixed(token)
    ensures ReplaceAll(PatternOf(pieces), Written(token), value) == PatternOf(Fill(pieces, token, value))
    decreases |pieces|
  {
    if pieces != [] {
      var p, rest := pieces[0], PatternOf(pieces[1..]);
      ReplaceIsFill(pieces[1..], token, value);
      assert Fill(pieces, token, value)[1..] == Fill(pieces[1..], token, value);
      if p == token {
        ReplaceAtToken(Written(token), rest, value);
      } else if p.Plain? {
        TokenShape(token);
        ReplaceAfterPlain(p.text, rest, Written(token), value);
      } else {
        ReplaceAtOther(p, token, rest, value);
      }
    }
  }

  // ── The sequence tokens ──

  lemma {:induction false} RenderAfterPlain(text: string, rest: string, number: nat)
    requires NoBrace(text)
    ensures RenderSeq(text + rest, number) == text + RenderSeq(rest, number)
    decreases |text|
  {
    if text == [] {
      assert text + rest == rest;
    } else {
      assert (text + rest)[1..] == text[1..] + rest;
      RenderAfterPlain(text[1..], rest, number);
    }
  }

  lemma {:induction false} RunOfDigits(s: string, rest: string)
    requires AllDigits(s) && rest != [] && !IsDigit(rest[0])
    ensures DigitRun(s + rest) == |s|
    decreases |s|
  {
    if s == [] {
      assert s + rest == rest;
    } else {
      assert (s + rest)[1..] == s[1..] + rest;
      RunOfDigits(s[1..], rest);
    }
  }

  lemma MatchAt(s: string, n: nat)
    requires n > 0 && 5 + n < |s| && s[..5] == "{SEQ:" && DigitRun(s[5..]) == n && s[5 + n] == '}'
    ensures MatchSeq(s) == Some(SeqToken(6 + n, Some(Value(s[5..5 + n]))))
  {
    assert s[4] == s[..5][4] == ':';
    assert "{SEQ}"[4] == '}';
  }

  lemma Middle(a: string, b: string, c: string)
    ensures var s := a + (b + c);
            s[..|a|] == a && s[|a|..] == b + c && s[|a|..|a| + |b|] == b && forall k :: 0 <= k < |c| ==> s[|a| + |b| + k] == c[k]
  {
  }

  lemma MatchesPadded(numeral: string, rest: string)
    requires numeral != [] && AllDigits(numeral)
    ensures MatchSeq(Written(PaddedSequence(numeral)) + rest) == Some(SeqToken(6 + |numeral|, Some(Value(numeral))))
  {
    var s, tail := "{SEQ:" + (numeral + ("}" + rest)), "}" + rest;
    assert Written(PaddedSequence(numeral)) + rest == s;
    Middle("{SEQ:", numeral, tail);
    RunOfDigits(numeral, tail);
    assert tail[0] == '}';
    MatchAt(s, |numeral|);
  }

  lemma RenderAtSequence(p: Piece, rest: string, v: Values, number: nat)
    requires WellFormed(p) && (p.Sequence? || p.PaddedSequence?)
    ensures RenderSeq(Written(p) + rest, number) == Meaning(p, v, number) + RenderSeq(rest, number)
  {
    var s := Written(p) + rest;
    assert s[|Written(p)|..] == rest;
    if p.Sequence? {
      assert s[..5] == "{SEQ}";
    } else {
      MatchesPadded(p.numeral, rest);
    }
  }

  lemma {:induction false} RenderIsMeaning(pieces: seq<Piece>, v: Values, number: nat)
    requires AllWellFormed(pieces) && forall k :: 0 <= k < |pieces| ==> !IsFixed(pieces[k])
    ensures RenderSeq(PatternOf(pieces), number) == MeaningOf(pieces, v, number)
    decreases |pieces|
  {
    if pieces != [] {
      RenderIsMeaning(pieces[1..], v, number);
      assert !IsFixed(pieces[0]);
      if pieces[0].Plain? {
        RenderAfterPlain(pieces[0].text, PatternOf(pieces[1..]), number);
      } else {
        RenderAtSequence(pieces[0], PatternOf(pieces[1..]), v, number);
      }
    }
  }

  // ── All of it ──

  lemma {:induction false} FillKeepsMeaning(pieces: seq<Piece>, token: Piece, v: Values, number: nat)
    requires IsFixed(token)
    ensures MeaningOf(Fill(pieces, token, Meaning(token, v, 0)), v, number) == MeaningOf(pieces, v, number)
    decreases |pieces|
  {
    if pieces != [] {
      FillKeepsMeaning(pieces[1..], token, v, number);
      assert Fill(pieces, token, Meaning(token, v, 0))[1..] == Fill(pieces[1..], token, Meaning(token, v, 0));
    }
  }

  lemma {:induction false} DigitsAreDigits(n: nat)
    ensures AllDigits(Digits(n))
  {
    if n >= 10 { DigitsAreDigits(n / 10); }
  }

  lemma ValuesPlain(token: Piece, v: Values)
    requires IsFixed(token) && NoBrace(v.category) && NoBrace(v.abbreviation)
    ensures NoBrace(Meaning(token, v, 0))
  {
    DigitsAreDigits(v.year);
    DigitsAreDigits(v.month);
  }

  /** One token filled in: well formed, without that token, of the same meaning. */
  lemma FillStep(pieces: seq<Piece>, token: Piece, v: Values, number: nat) returns (filled: seq<Piece>)
    requires AllWellFormed(pieces) && IsFixed(token) && NoBrace(v.category) && NoBrace(v.abbreviation)
    ensures PatternOf(filled) == ReplaceAll(PatternOf(pieces), Written(token), Meaning(token, v, 0))
    ensures AllWellFormed(filled) && MeaningOf(filled, v, number) == MeaningOf(pieces, v, number)
    ensures forall p :: p in filled ==> p != token && (p in pieces || p.Plain?)
  {
    filled := Fill(pieces, token, Meaning(token, v, 0));
    ValuesPlain(token, v);
    ReplaceIsFill(pieces, token, Meaning(token, v, 0));
    FillKeepsMeaning(pieces, token, v, number);
  }

  /** If neither abbreviation holds an opening brace, a document number is its pattern with the value of each
      token in the place of the token. */
  lemma NumberIsMeaning(pieces: seq<Piece>, v: Values, number: nat)
    requires AllWellFormed(pieces) && NoBrace(v.category) && NoBrace(v.abbreviation)
    ensures RenderDocNumber(PatternOf(pieces), v.year, v.month, number, v.abbreviation, v.category) ==
            MeaningOf(pieces, v, number)
  {
    var a := FillStep(pieces, Year, v, number);
    var b := FillStep(a, ShortYear, v, number);
    var c := FillStep(b, Month, v, number);
    var d := FillStep(c, Category, v, number);
    var e := FillStep(d, Abbreviation, v, number);
    assert PatternOf(e) == FixedText(PatternOf(pieces), v.year, v.month, v.abbreviation, v.category);
    forall k | 0 <= k < |e| ensures !IsFixed(e[k]) {
      NoneLeft(a, b, c, d, e, e[k]);
    }
    RenderIsMeaning(e, v, number);
  }

  lemma NoneLeft(a: seq<Piece>, b: seq<Piece>, c: seq<Piece>, d: seq<Piece>, e: seq<Piece>, p: Piece)
    requires forall q :: q in a ==> q != Year
    requires forall q :: q in b ==> q != ShortYear && (q in a || q.Plain?)
    requires forall q :: q in c ==> q != Month && (q in b || q.Plain?)
    requires forall q :: q in d ==> q != Category && (q in c || q.Plain?)
    requires forall q :: q in e ==> q != Abbreviation && (q in d || q.Plain?)
    requires p in e
    ensures !IsFixed(p)
  {
  }

  /** The condition matters: a category or abbreviation that reads like a token is replaced again. */
  lemma AbbreviationIsScanned(v: Values, number: nat)
    requires v.abbreviation == "{SEQ}" && v.category == ""
    ensures RenderDocNumber(PatternOf([Abbreviation]), v.year, v.month, number, v.abbreviation, v.category) == Digits(number)
    ensures MeaningOf([Abbreviation], v, number) == "{SEQ}"
  {
    var plain := v.(abbreviation := "");
    var text := PatternOf([Abbreviation]);
    assert [Abbreviation][1..] == [] && text == "{ABBR}" + "";
    assert text == "{ABBR}";
    ReplaceAtOther(Abbreviation, Year, "", Digits(v.year));
    ReplaceAtOther(Abbreviation, ShortYear, "", LastTwo(Digits(v.year)));
    ReplaceAtOther(Abbreviation, Month, "", PadStart(Digits(v.month), 2));
    ReplaceAtOther(Abbreviation, Category, "", "");
    ReplaceAtToken("{ABBR}", "", "{SEQ}");
    assert "{ABBR}" + "" == "{ABBR}" && "{SEQ}" + "" == "{SEQ}";
    RenderAtSequence(Sequence, "", v, number);
  }
}
