/** The lexer of src/compiler.rs: the operations `OP`, the whitespace split of the
    source text and the classification of each token. */
module Lexer {
  import opened Bytes
  import opened Results

  /** One classified token (`OP`). Literals are stored as `i64`; a call keeps the
      built-in's name. */
  datatype Op =
    | Push(n: i64)
    | Dup
    | Over
    | Add
    | Equal
    | If
    | Else
    | End
    | Call(name: string)
    | Poke

  datatype LexError =
    | UnknownWord(token: string)
    /** The token is a `u64` literal that does not fit in an `i64`. */
    | NumberTooLarge(token: string)

  /** The built-in names the lexer recognises. */
  const BUILTINS: set<string> := {"putd", "alloc", "write"}

  // ---------------------------------------------------------------------------
  // Splitting on whitespace (`str::split_whitespace`)
  // ---------------------------------------------------------------------------

  /** Rust's `char::is_whitespace`: the Unicode `White_Space` property. */
  predicate IsWhitespace(c: char) {
    var n := c as int;
    || (0x09 <= n <= 0x0D)
    || n == 0x20 || n == 0x85 || n == 0xA0 || n == 0x1680
    || (0x2000 <= n <= 0x200A)
    || n == 0x2028 || n == 0x2029 || n == 0x202F || n == 0x205F || n == 0x3000
  }

  /** A token: a non-empty run of non-whitespace characters. */
  predicate IsWord(w: string) {
    |w| > 0 && forall k :: 0 <= k < |w| ==> !IsWhitespace(w[k])
  }

  /** The end of the run of non-whitespace characters starting at `i`. */
  function WordEnd(s: string, i: nat): (j: nat)
    requires i <= |s|
    ensures i <= j <= |s|
    ensures forall k :: i <= k < j ==> !IsWhitespace(s[k])
    ensures j == |s| || IsWhitespace(s[j])
    decreases |s| - i
  {
    if i == |s| || IsWhitespace(s[i]) then i else WordEnd(s, i + 1)
  }

  /** The tokens of `s`, in order: its maximal runs of non-whitespace characters. */
  function Words(s: string): (ws: seq<string>)
    ensures forall k :: 0 <= k < |ws| ==> IsWord(ws[k])
    decreases |s|
  {
    if |s| == 0 then []
    else if IsWhitespace(s[0]) then Words(s[1..])
    else
      var j := WordEnd(s, 0);
      [s[..j]] + Words(s[j..])
  }

  /** The tokens joined by single spaces. */
  function Unwords(ws: seq<string>): string {
    if |ws| == 0 then ""
    else if |ws| == 1 then ws[0]
    else ws[0] + " " + Unwords(ws[1..])
  }

  lemma {:induction false} WordEndOfWord(w: string, t: string, i: nat)
    requires IsWord(w) && (|t| == 0 || IsWhitespace(t[0])) && i <= |w|
    ensures WordEnd(w + t, i) == |w|
    decreases |w| - i
  {
    if i < |w| {
      assert (w + t)[i] == w[i];
      WordEndOfWord(w, t, i + 1);
    }
  }

  /** A token followed by the end of text or by whitespace is read as one token. */
  lemma WordsOfWordThen(w: string, t: string)
    requires IsWord(w) && (|t| == 0 || IsWhitespace(t[0]))
    ensures Words(w + t) == [w] + Words(t)
  {
    WordEndOfWord(w, t, 0);
    assert (w + t)[..|w|] == w;
    assert (w + t)[|w|..] == t;
  }

  /** Whitespace before the text changes nothing: any run of whitespace, of any
      kind, separates tokens the same way. */
  lemma WordsSkipsWhitespace(c: char, s: string)
    requires IsWhitespace(c)
    ensures Words([c] + s) == Words(s)
  {
    assert ([c] + s)[1..] == s;
  }

  /** The text with every whitespace character removed. */
  function Squeeze(s: string): string {
    if |s| == 0 then "" else (if IsWhitespace(s[0]) then "" else [s[0]]) + Squeeze(s[1..])
  }

  /** The tokens, end to end. */
  function Concat(ws: seq<string>): string {
    if |ws| == 0 then "" else ws[0] + Concat(ws[1..])
  }

  lemma {:induction false} SqueezeRun(s: string, j: nat)
    requires j <= |s| && forall k :: 0 <= k < j ==> !IsWhitespace(s[k])
    ensures Squeeze(s) == s[..j] + Squeeze(s[j..])
    decreases j
  {
    if j > 0 {
      SqueezeRun(s[1..], j - 1);
      assert s[1..][..j - 1] == s[1..j] && s[1..][j - 1..] == s[j..];
      assert s[..j] == [s[0]] + s[1..j];
    }
  }

  /** No character is lost or invented: the tokens, end to end, are the text
      without its whitespace. */
  lemma {:induction false} WordsCover(s: string)
    ensures Concat(Words(s)) == Squeeze(s)
    decreases |s|
  {
    if |s| > 0 {
      if IsWhitespace(s[0]) {
        WordsCover(s[1..]);
      } else {
        var j := WordEnd(s, 0);
        assert Words(s) == [s[..j]] + Words(s[j..]);
        SqueezeRun(s, j);
        WordsCover(s[j..]);
        assert ([s[..j]] + Words(s[j..]))[1..] == Words(s[j..]);
      }
    }
  }

  /** Splitting undoes joining: a list of tokens joined by spaces splits back into
      the same list. */
  lemma {:induction false} WordsUnwords(ws: seq<string>)
    requires forall k :: 0 <= k < |ws| ==> IsWord(ws[k])
    ensures Words(Unwords(ws)) == ws
  {
    if |ws| == 1 {
      WordsOfWordThen(ws[0], "");
      assert ws[0] + "" == ws[0];
    } else if |ws| > 1 {
      var rest := " " + Unwords(ws[1..]);
      assert Unwords(ws) == ws[0] + rest;
      WordsOfWordThen(ws[0], rest);
      assert rest[1..] == Unwords(ws[1..]);
      WordsUnwords(ws[1..]);
    }
  }

  // ---------------------------------------------------------------------------
  // Unsigned decimal literals (`str::parse::<u64>` and `str::parse::<i64>`)
  // ---------------------------------------------------------------------------

  predicate IsDigit(c: char) {
    '0' <= c <= '9'
  }

  predicate AllDigits(s: string) {
    forall k :: 0 <= k < |s| ==> IsDigit(s[k])
  }

  /** The value of a string of decimal digits, most significant first. */
  function DigitsValue(ds: string): nat
    requires AllDigits(ds)
  {
    if |ds| == 0 then 0
    else DigitsValue(ds[..|ds| - 1]) * 10 + (ds[|ds| - 1] as int - '0' as int)
  }

  /** The digits of an unsigned literal: everything after an optional leading `+`. */
  function LiteralDigits(tok: string): string {
    if |tok| > 0 && tok[0] == '+' then tok[1..] else tok
  }

  /** The grammar `u64::from_str` accepts, value aside: an optional `+` and at
      least one ASCII digit. */
  predicate IsUnsignedLiteral(tok: string) {
    var ds := LiteralDigits(tok);
    |ds| > 0 && AllDigits(ds)
  }

  /** `tok.parse::<u64>()`: the literal's value, if it is one and fits in 64 bits. */
  function ParseU64(tok: string): (r: Option<u64>)
    ensures r.Some? <==> IsUnsignedLiteral(tok) && DigitsValue(LiteralDigits(tok)) <= U64_MAX
    ensures r.Some? ==> r.value == DigitsValue(LiteralDigits(tok))
  {
    var ds := LiteralDigits(tok);
    if |ds| == 0 || !AllDigits(ds) then None
    else
      var v := DigitsValue(ds);
      if v <= U64_MAX then Some(v) else None
  }

  /** The decimal numeral of `n`, without leading zeros. */
  function Decimal(n: nat): (s: string)
    ensures |s| > 0 && AllDigits(s)
  {
    if n < 10 then [('0' as int + n) as char]
    else Decimal(n / 10) + [('0' as int + n % 10) as char]
  }

  lemma {:induction false} DecimalValue(n: nat)
    ensures DigitsValue(Decimal(n)) == n
  {
    if n >= 10 {
      var s := Decimal(n);
      assert s[..|s| - 1] == Decimal(n / 10);
      DecimalValue(n / 10);
    }
  }

  // ---------------------------------------------------------------------------
  // Classification of one token
  // ---------------------------------------------------------------------------

  /** The operation a fixed word stands for. */
  function FixedWord(tok: string): (r: Option<Op>)
    ensures r.Some? ==> !IsUnsignedLiteral(tok) && tok !in BUILTINS
    ensures r.Some? ==> !r.value.Push? && !r.value.Call?
  {
    if tok == "dup" then Some(Dup)
    else if tok == "over" then Some(Over)
    else if tok == "+" then
      assert LiteralDigits(tok) == "";
      Some(Add)
    else if tok == "=" then Some(Equal)
    else if tok == "if" then Some(If)
    else if tok == "else" then Some(Else)
    else if tok == "end" then Some(End)
    else if tok == "!" then Some(Poke)
    else None
  }

  /** No built-in name is a literal. */
  lemma BuiltinsAreNotLiterals(tok: string)
    requires tok in BUILTINS
    ensures !IsUnsignedLiteral(tok)
  {
    assert !IsDigit(tok[0]) && tok[0] != '+';
  }

  /** The operation for one token: the fixed words first, then unsigned literals,
      then built-in names; anything else is an unknown word. */
  function Classify(tok: string): (r: Result<Op, LexError>)
    ensures r.Ok? && r.value.Push? ==>
              IsUnsignedLiteral(tok) && r.value.n == DigitsValue(LiteralDigits(tok))
    ensures r.Ok? && r.value.Call? ==> r.value.name == tok && tok in BUILTINS
    ensures r == Err(NumberTooLarge(tok)) <==>
              IsUnsignedLiteral(tok) && I64_MAX < DigitsValue(LiteralDigits(tok)) <= U64_MAX
    ensures r.Ok? <==>
              || FixedWord(tok).Some?
              || (IsUnsignedLiteral(tok) && DigitsValue(LiteralDigits(tok)) <= I64_MAX)
              || tok in BUILTINS
    ensures FixedWord(tok).Some? ==> r == Ok(FixedWord(tok).value)
    ensures IsUnsignedLiteral(tok) && DigitsValue(LiteralDigits(tok)) <= I64_MAX
            ==> r == Ok(Push(DigitsValue(LiteralDigits(tok))))
    ensures r.Err? && !r.error.NumberTooLarge? ==> r == Err(UnknownWord(tok))
  {
    match FixedWord(tok)
    case Some(op) => Ok(op)
    case None =>
      match ParseU64(tok)
      case Some(v) => if v <= I64_MAX then Ok(Push(v)) else Err(NumberTooLarge(tok))
      case None => if tok in BUILTINS then Ok(Call(tok)) else Err(UnknownWord(tok))
  }

  /** Each of the eight fixed words is lexed as its own operation. */
  lemma ClassifyFixed()
    ensures Classify("dup") == Ok(Dup) && Classify("over") == Ok(Over)
    ensures Classify("+") == Ok(Add) && Classify("=") == Ok(Equal)
    ensures Classify("if") == Ok(If) && Classify("else") == Ok(Else)
    ensures Classify("end") == Ok(End) && Classify("!") == Ok(Poke)
  {
    assert FixedWord("dup") == Some(Dup) && FixedWord("over") == Some(Over);
    assert FixedWord("+") == Some(Add) && FixedWord("=") == Some(Equal);
    assert FixedWord("if") == Some(If) && FixedWord("else") == Some(Else);
    assert FixedWord("end") == Some(End) && FixedWord("!") == Some(Poke);
  }

  /** A token is lexed as a call exactly when it is a built-in name. */
  lemma ClassifyCall(tok: string)
    ensures Classify(tok).Ok? && Classify(tok).value.Call? <==> tok in BUILTINS
  {
    if tok in BUILTINS {
      BuiltinsAreNotLiterals(tok);
    }
  }

  /** The value of the literal written as a plain numeral is that number. */
  lemma NumeralLiteral(n: nat)
    ensures IsUnsignedLiteral(Decimal(n)) && DigitsValue(LiteralDigits(Decimal(n))) == n
  {
    var s := Decimal(n);
    DecimalValue(n);
    assert IsDigit(s[0]);
    assert LiteralDigits(s) == s;
  }

  /** The value of the literal written as `+` and a numeral is that number. */
  lemma SignedNumeralLiteral(n: nat)
    ensures IsUnsignedLiteral("+" + Decimal(n)) && DigitsValue(LiteralDigits("+" + Decimal(n))) == n
  {
    var s := Decimal(n);
    DecimalValue(n);
    assert ("+" + s)[1..] == s;
    assert LiteralDigits("+" + s) == s;
  }

  /** Every decimal numeral up to `i64::MAX`, with or without a leading `+`, is
      lexed as a push of its value. */
  lemma ClassifyDecimal(n: nat)
    requires n <= I64_MAX
    ensures Classify(Decimal(n)) == Ok(Push(n))
    ensures Classify("+" + Decimal(n)) == Ok(Push(n))
  {
    NumeralLiteral(n);
    SignedNumeralLiteral(n);
  }

  /** A numeral above `i64::MAX` fails: as too large for an `i64` when it still
      fits in a `u64`, and as an unknown word beyond that. */
  lemma ClassifyLargeDecimal(n: nat)
    requires n > I64_MAX
    ensures n <= U64_MAX ==> Classify(Decimal(n)) == Err(NumberTooLarge(Decimal(n)))
    ensures n > U64_MAX ==> Classify(Decimal(n)) == Err(UnknownWord(Decimal(n)))
  {
    NumeralLiteral(n);
    if Decimal(n) in BUILTINS {
      BuiltinsAreNotLiterals(Decimal(n));
    }
  }

  // ---------------------------------------------------------------------------
  // The lexer (`lex`)
  // ---------------------------------------------------------------------------

  /** One operation per token, in order; the first token that fails to classify
      is the error. */
  function LexWords(ws: seq<string>): (r: Result<seq<Op>, LexError>)
    ensures r.Ok? <==> forall k :: 0 <= k < |ws| ==> Classify(ws[k]).Ok?
    ensures r.Ok? ==> |r.value| == |ws|
                      && forall k :: 0 <= k < |ws| ==> Classify(ws[k]) == Ok(r.value[k])
    ensures r.Err? ==> exists k :: 0 <= k < |ws| && Classify(ws[k]) == Err(r.error)
                                   && forall j :: 0 <= j < k ==> Classify(ws[j]).Ok?
  {
    if |ws| == 0 then Ok([])
    else
      var op :- Classify(ws[0]);
      var rest :- LexWords(ws[1..]);
      Ok([op] + rest)
  }

  /** `lex`: split the text on whitespace and classify every token. */
  function Lex(text: string): Result<seq<Op>, LexError> {
    LexWords(Words(text))
  }

  /** Lexing tokens joined by spaces classifies exactly those tokens, one
      operation each and in their order. */
  lemma LexUnwords(ws: seq<string>)
    requires forall k :: 0 <= k < |ws| ==> IsWord(ws[k])
    ensures Lex(Unwords(ws)).Ok? <==> forall k :: 0 <= k < |ws| ==> Classify(ws[k]).Ok?
    ensures Lex(Unwords(ws)).Ok? ==>
              && |Lex(Unwords(ws)).value| == |ws|
              && forall k :: 0 <= k < |ws| ==> Classify(ws[k]) == Ok(Lex(Unwords(ws)).value[k])
  {
    WordsUnwords(ws);
  }
}
