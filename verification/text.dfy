/** Text normalisation of the offline build script: turning table cells into safe strings
    (`_safe_text`), tokenising (`safe_tokenize`) and the token pipeline of `preprocess_text`. */
module Text {
  import opened Outcomes
  import Seqs

  // Preprocessing switches of the build script.
  const USE_LEMMATIZE := true
  const USE_STEM := false
  const REMOVE_SHORT := true

  /** A value read from a table: Python's None, pandas' NaN marker for a missing value, or text. */
  datatype Cell = Null | NaN | Str(s: string)

  /** Python's `str(x)` for the values a cell can hold. */
  function StrOf(x: Cell): string
  {
    match x
    case Null => "None"
    case NaN => "nan"
    case Str(s) => s
  }

  predicate IsUpperAscii(c: char) { 'A' <= c <= 'Z' }

  predicate IsLowerAscii(c: char) { 'a' <= c <= 'z' }

  predicate IsAsciiLetter(c: char) { IsUpperAscii(c) || IsLowerAscii(c) }

  function LowerChar(c: char): (r: char)
    ensures !IsUpperAscii(r)
    ensures IsAsciiLetter(c) <==> IsAsciiLetter(r)
  {
    if IsUpperAscii(c) then (c as int + 32) as char else c
  }

  /** Python's `str.lower`, on the ASCII range. */
  function Lower(s: string): (r: string)
    ensures |r| == |s|
    ensures forall i :: 0 <= i < |s| ==> r[i] == LowerChar(s[i])
  {
    seq(|s|, i requires 0 <= i < |s| => LowerChar(s[i]))
  }

  /** `_safe_text`: None, and every value whose text lowercases to "nan", become the empty
      string; any other string is returned unchanged. */
  function SafeText(x: Cell): (r: string)
    ensures Lower(r) != "nan"
    ensures r == "" <==> (x.Null? || x.NaN? || Lower(x.s) == "nan" || x.s == "")
    ensures r != "" ==> x == Str(r)
  {
    if x.Null? then ""
    else
      var s := StrOf(x);
      if Lower(s) == "nan" then "" else s
  }

  /** Cleaning is idempotent: the output of `_safe_text`, fed back in, comes out unchanged. */
  lemma SafeTextIdempotent(x: Cell)
    ensures SafeText(Str(SafeText(x))) == SafeText(x)
  {
  }

  // ---------------------------------------------------------------- regular-expression fallback

  /** A token of the fallback tokenizer: a non-empty run of ASCII letters. */
  predicate IsWord(w: string)
  {
    w != [] && forall i :: 0 <= i < |w| ==> IsAsciiLetter(w[i])
  }

  predicate IsLowerWord(w: string)
  {
    w != [] && forall i :: 0 <= i < |w| ==> IsLowerAscii(w[i])
  }

  predicate HasNoUpper(s: string)
  {
    forall i :: 0 <= i < |s| ==> !IsUpperAscii(s[i])
  }

  /** Length of the run of ASCII letters at the front of `s`. */
  function LetterRunLength(s: string): (k: nat)
    ensures k <= |s|
    ensures forall i :: 0 <= i < k ==> IsAsciiLetter(s[i])
    ensures k < |s| ==> !IsAsciiLetter(s[k])
  {
    if s == [] || !IsAsciiLetter(s[0]) then 0 else 1 + LetterRunLength(s[1..])
  }

  /** `re.findall(r"[a-zA-Z]+", s)`: the maximal runs of ASCII letters of `s`, left to right. */
  function AlphaRuns(s: string): (r: seq<string>)
    ensures forall j :: 0 <= j < |r| ==> IsWord(r[j])
    decreases |s|
  {
    if s == [] then []
    else if !IsAsciiLetter(s[0]) then AlphaRuns(s[1..])
    else
      var k := LetterRunLength(s);
      [s[..k]] + AlphaRuns(s[k..])
  }

  /** A whole run of letters is one token. */
  lemma {:induction false} AlphaRunsOfWord(w: string)
    requires IsWord(w)
    ensures AlphaRuns(w) == [w]
  {
    LetterRunOfWord(w);
    assert w[..|w|] == w && w[|w|..] == [];
  }

  lemma {:induction false} LetterRunOfWord(w: string)
    requires forall i :: 0 <= i < |w| ==> IsAsciiLetter(w[i])
    ensures LetterRunLength(w) == |w|
  {
    if w != [] {
      LetterRunOfWord(w[1..]);
    }
  }

  /** A non-letter splits the text: nothing on one side of it joins a token of the other side,
      and the tokens of the left part come first. With AlphaRunsOfWord and AlphaRuns("") == []
      this determines AlphaRuns on every string. */
  lemma {:induction false} AlphaRunsSplit(a: string, c: char, b: string)
    requires !IsAsciiLetter(c)
    ensures AlphaRuns(a + [c] + b) == AlphaRuns(a) + AlphaRuns(b)
    decreases |a|
  {
    var s := a + [c] + b;
    if a == [] {
      assert s[1..] == b;
    } else if !IsAsciiLetter(a[0]) {
      assert s[1..] == a[1..] + [c] + b;
      AlphaRunsSplit(a[1..], c, b);
    } else {
      var k := LetterRunLength(s);
      var ka := LetterRunLength(a);
      LetterRunPrefix(a, [c] + b);
      assert a + ([c] + b) == s;
      assert s[..k] == a[..k];
      assert s[k..] == a[k..] + [c] + b;
      AlphaRunsSplit(a[k..], c, b);
    }
  }

  /** The letter run at the front of `a + t` stops inside `a` when `t` starts with a non-letter. */
  lemma {:induction false} LetterRunPrefix(a: string, t: string)
    requires t != [] && !IsAsciiLetter(t[0])
    ensures LetterRunLength(a + t) == LetterRunLength(a)
    decreases |a|
  {
    if a != [] && IsAsciiLetter(a[0]) {
      assert (a + t)[1..] == a[1..] + t;
      LetterRunPrefix(a[1..], t);
    }
  }

  /** Runs taken from text without upper-case letters are lower-case words. */
  lemma {:induction false} AlphaRunsOfLowered(s: string)
    requires HasNoUpper(s)
    ensures forall j :: 0 <= j < |AlphaRuns(s)| ==> IsLowerWord(AlphaRuns(s)[j])
    decreases |s|
  {
    if s != [] {
      if !IsAsciiLetter(s[0]) {
        AlphaRunsOfLowered(s[1..]);
      } else {
        var k := LetterRunLength(s);
        AlphaRunsOfLowered(s[k..]);
        assert IsLowerWord(s[..k]);
      }
    }
  }

  // ---------------------------------------------------------------- the NLTK tokenizer, lemmatizer and stemmer

  /** The external text services the script calls: NLTK's `word_tokenize` (usable only when
      its tokenizer data is installed, `punkt`), WordNet lemmatisation, Porter stemming, and
      the per-character letter test behind Python's `str.isalpha`. */
  datatype TextLib = TextLib(
    punkt: bool,
    wordTokenize: string -> seq<string>,
    lemmatize: string -> string,
    stem: string -> string,
    isLetter: char -> bool)

  /** The failure `word_tokenize` raises when its tokenizer data is missing (a LookupError). */
  datatype TextError = TokenizerDataMissing

  /** `safe_tokenize`: empty text has no tokens; NLTK's tokenizer is used when it works, and the
      letter-run fallback over the lower-cased text otherwise. */
  function SafeTokenize(lib: TextLib, text: string): (r: seq<string>)
    ensures text == "" ==> r == []
    ensures text != "" && lib.punkt ==> r == lib.wordTokenize(text)
    ensures text != "" && !lib.punkt ==> forall j :: 0 <= j < |r| ==> IsLowerWord(r[j])
    ensures text != "" && !lib.punkt ==> r == AlphaRuns(Lower(text))
  {
    if text == "" then []
    else if lib.punkt then lib.wordTokenize(text)
    else
      AlphaRunsOfLowered(Lower(text));
      AlphaRuns(Lower(text))
  }

  /** Python's `str.isalpha`: non-empty and made of letters only. */
  predicate IsAlpha(lib: TextLib, t: string)
  {
    |t| > 0 && forall i :: 0 <= i < |t| ==> lib.isLetter(t[i])
  }

  /** The tokens `preprocess_text` keeps: alphabetic and, with short-token removal on, at
      least two characters long. */
  predicate Kept(lib: TextLib, t: string)
  {
    IsAlpha(lib, t) && !(REMOVE_SHORT && |t| < 2)
  }

  /** The form a kept token takes in the output: lemmatised and/or stemmed per the switches. */
  function Normalized(lib: TextLib, t: string): string
  {
    var base := if USE_LEMMATIZE then lib.lemmatize(t) else t;
    if USE_STEM then lib.stem(base) else base
  }

  function Keeper(lib: TextLib): string -> bool { t => Kept(lib, t) }

  function Normalizer(lib: TextLib): string -> string { t => Normalized(lib, t) }

  /** The tokens `preprocess_text` works on: NLTK's tokens of the lower-cased text. */
  function RawTokens(lib: TextLib, text: string): seq<string>
  {
    lib.wordTokenize(Lower(text))
  }

  /** What `preprocess_text` returns: nothing for empty text, the tokenizer's failure when its
      data is missing, and otherwise the normalised forms of the kept tokens, in order. */
  function Preprocessed(lib: TextLib, text: string): (r: Result<seq<string>, TextError>)
    ensures text == "" ==> r == Success([])
    ensures r.Failure? <==> text != "" && !lib.punkt
    ensures r.Success? && text != "" ==> |r.value| <= |RawTokens(lib, text)|
  {
    if text == "" then Success([])
    else if !lib.punkt then Failure(TokenizerDataMissing)
    else Success(Seqs.Map(Normalizer(lib), Seqs.Filter(Keeper(lib), RawTokens(lib, text))))
  }

  /** `preprocess_text`, the loop that appends the normalised form of each kept token. */
  method PreprocessText(lib: TextLib, text: string) returns (r: Result<seq<string>, TextError>)
    ensures r == Preprocessed(lib, text)
  {
    if text == "" {
      return Success([]);
    }
    if !lib.punkt {
      return Failure(TokenizerDataMissing);
    }
    var tokens := lib.wordTokenize(Lower(text));
    var out: seq<string> := [];
    for i := 0 to |tokens|
      invariant out == Seqs.Map(Normalizer(lib), Seqs.Filter(Keeper(lib), tokens[..i]))
    {
      var t := tokens[i];
      Seqs.FilterAppend(Keeper(lib), tokens[..i], t);
      assert tokens[..i + 1] == tokens[..i] + [t];
      if !IsAlpha(lib, t) {
        continue;
      }
      if REMOVE_SHORT && |t| < 2 {
        continue;
      }
      var tok := t;
      if USE_LEMMATIZE {
        tok := lib.lemmatize(tok);
      }
      if USE_STEM {
        tok := lib.stem(tok);
      }
      Seqs.MapAppend(Normalizer(lib), Seqs.Filter(Keeper(lib), tokens[..i]), t);
      out := out + [tok];
    }
    assert tokens[..|tokens|] == tokens;
    return Success(out);
  }

  /** The output of `preprocess_text` is the lemmatised form of exactly the kept tokens, in the
      tokenizer's order: the j-th output token comes from the tokenizer token at an ascending
      position `ps[j]`, that token is alphabetic and at least two characters long, and every such
      token contributes. */
  lemma PreprocessSelects(lib: TextLib, text: string)
    requires text != "" && lib.punkt
    ensures var tokens, out := RawTokens(lib, text), Preprocessed(lib, text).value;
      var ps := Seqs.Positions(Keeper(lib), tokens);
      && |ps| == |out| <= |tokens|
      && Seqs.StrictlyIncreasing(ps)
      && (forall j :: 0 <= j < |ps| ==>
            ps[j] < |tokens| && IsAlpha(lib, tokens[ps[j]]) && |tokens[ps[j]]| >= 2
            && out[j] == lib.lemmatize(tokens[ps[j]]))
      && (forall i :: 0 <= i < |tokens| && IsAlpha(lib, tokens[i]) && |tokens[i]| >= 2 ==> i in ps)
  {
    var tokens := RawTokens(lib, text);
    Seqs.FilterSelects(Keeper(lib), tokens);
    var kept := Seqs.Filter(Keeper(lib), tokens);
    var ps := Seqs.Positions(Keeper(lib), tokens);
    forall j | 0 <= j < |ps|
      ensures IsAlpha(lib, tokens[ps[j]]) && |tokens[ps[j]]| >= 2
    {
      assert kept[j] in kept;
    }
  }
}
