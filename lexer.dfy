/**
 * The tokenizer (`src/lexzer.rs`): every `(` and `)` is padded with spaces,
 * the text is split on whitespace, and each word becomes a parenthesis token,
 * a signed 64-bit integer or a symbol.
 */
module Lexer {
  import opened Wrappers
  import opened Sequences
  import Objects
  type I64 = Objects.I64

  /** The token type (`Analyzer` in the source). */
  datatype Token = Integer(n: I64) | Symbol(name: string) | LParen | RParen

  /** The tokenizer's error type; no input produces it. */
  datatype LexError = UnexpectedCharacter(ch: char)

  // ---------------------------------------------------------------------------
  // Characters

  /** Unicode White_Space, the set Rust's `split_whitespace` splits on. */
  predicate IsWhitespace(c: char)
  {
    ('\t' <= c <= '\r') || c == ' ' || c == '\U{0085}' || c == '\U{00A0}' || c == '\U{1680}'
    || ('\U{2000}' <= c <= '\U{200A}') || c == '\U{2028}' || c == '\U{2029}'
    || c == '\U{202F}' || c == '\U{205F}' || c == '\U{3000}'
  }

  predicate IsParen(c: char) { c == '(' || c == ')' }

  /** A character that belongs to a multi-character word. */
  predicate IsWordChar(c: char) { !IsWhitespace(c) && !IsParen(c) }

  predicate IsDigit(c: char) { '0' <= c <= '9' }

  predicate AllDigits(s: string) { forall i :: 0 <= i < |s| ==> IsDigit(s[i]) }

  // ---------------------------------------------------------------------------
  // The library calls `analyzer` is built from

  /** `s.replace(c, r)` for a one-character pattern. */
  function Replace(s: string, c: char, r: string): (out: string)
    ensures c !in s ==> out == s
    ensures c !in r ==> c !in out
    ensures |out| == |s| + (|r| - 1) * Count(s, c)
  {
    if s == [] then []
    else
      var head := if s[0] == c then r else [s[0]];
      var k := Count(s[1..], c);
      assert Count(s, c) == (if s[0] == c then k + 1 else k);
      MulSucc(|r| - 1, k);
      head + Replace(s[1..], c, r)
  }

  lemma MulSucc(a: int, k: int)
    ensures a * (k + 1) == a * k + a
  {
  }

  /**
   * The padding step: `replace("(", " ( ")` followed by `replace(")", " ) ")`.
   * Each parenthesis gains two characters; a text without one is unchanged.
   */
  function Pad(s: string): (p: string)
    ensures (forall i :: 0 <= i < |s| ==> !IsParen(s[i])) ==> p == s
    ensures |p| == |s| + 2 * (Count(s, '(') + Count(s, ')'))
  {
    ReplaceKeepsCount(s, '(', " ( ", ')');
    Replace(Replace(s, '(', " ( "), ')', " ) ")
  }

  /** Replacing `c` by a text without `d` keeps the number of `d`s. */
  lemma {:induction false} ReplaceKeepsCount(s: string, c: char, r: string, d: char)
    requires d != c && d !in r
    ensures Count(Replace(s, c, r), d) == Count(s, d)
  {
    if s != [] {
      ReplaceKeepsCount(s[1..], c, r, d);
      var head := if s[0] == c then r else [s[0]];
      assert Replace(s, c, r) == head + Replace(s[1..], c, r);
      CountAppend(head, Replace(s[1..], c, r), d);
      if s[0] == c {
        CountAbsent(r, d);
      } else {
        CountCons(s[0], [], d);
      }
    }
  }

  /** Length of the longest prefix of `s` without whitespace. */
  function RunLength(s: string): (n: nat)
    ensures n <= |s|
    ensures forall i :: 0 <= i < n ==> !IsWhitespace(s[i])
    ensures n < |s| ==> IsWhitespace(s[n])
  {
    if s == [] || IsWhitespace(s[0]) then 0 else 1 + RunLength(s[1..])
  }

  /** `split_whitespace`: the maximal runs of non-whitespace characters, left to right. */
  function Words(s: string): (ws: seq<string>)
    ensures forall k :: 0 <= k < |ws| ==> ws[k] != [] && forall j :: 0 <= j < |ws[k]| ==> !IsWhitespace(ws[k][j])
    ensures ws == [] <==> forall i :: 0 <= i < |s| ==> IsWhitespace(s[i])
    decreases |s|
  {
    if s == [] then []
    else if IsWhitespace(s[0]) then Words(s[1..])
    else
      var n := RunLength(s);
      [s[..n]] + Words(s[n..])
  }

  /** The numeric value of a string of decimal digits. */
  function DigitsValue(ds: string): nat
    requires AllDigits(ds)
  {
    if ds == [] then 0
    else DigitsValue(ds[..|ds| - 1]) * 10 + (ds[|ds| - 1] as int - '0' as int)
  }

  /**
   * `str::parse::<i64>`: an optional `+` or `-`, then one or more ASCII digits,
   * and a value inside the 64-bit range.
   */
  function ParseI64(w: string): (r: Option<I64>)
    ensures r.Some? ==> w != [] && (IsDigit(w[0]) || w[0] == '+' || w[0] == '-')
                        && (forall i :: 1 <= i < |w| ==> IsDigit(w[i]))
                        && (!IsDigit(w[0]) ==> |w| > 1)
    ensures r.Some? && r.value < 0 ==> w[0] == '-'
    ensures w != [] && AllDigits(w) && Objects.InI64(DigitsValue(w)) ==> r == Some(DigitsValue(w) as I64)
    ensures w != [] && AllDigits(w) && !Objects.InI64(DigitsValue(w)) ==> r == None
    ensures |w| > 1 && w[0] == '+' && AllDigits(w[1..]) ==>
              (r.Some? <==> Objects.InI64(DigitsValue(w[1..])))
              && (r.Some? ==> r.value as int == DigitsValue(w[1..]))
    ensures |w| > 1 && w[0] == '-' && AllDigits(w[1..]) ==>
              (r.Some? <==> Objects.InI64(-(DigitsValue(w[1..]) as int)))
              && (r.Some? ==> r.value as int == -(DigitsValue(w[1..]) as int))
  {
    var signed := |w| > 0 && (w[0] == '+' || w[0] == '-');
    var digits := if signed then w[1..] else w;
    if digits == [] || !AllDigits(digits) then None
    else
      var v: int := if signed && w[0] == '-' then -(DigitsValue(digits) as int) else DigitsValue(digits);
      if Objects.InI64(v) then Some(v as I64) else None
  }

  /** The classification of one word (src/lexzer.rs:41-51). */
  function Classify(w: string): (t: Token)
    ensures t == LParen <==> w == "("
    ensures t == RParen <==> w == ")"
    ensures t.Integer? ==> ParseI64(w) == Some(t.n)
    ensures t.Symbol? ==> t.name == w && ParseI64(w) == None
  {
    if w == "(" then LParen
    else if w == ")" then RParen
    else match ParseI64(w)
      case Some(n) => Integer(n)
      case None => Symbol(w)
  }

  /** Classifies each word, keeping their order. */
  function ClassifyAll(ws: seq<string>): (ts: seq<Token>)
    ensures |ts| == |ws|
    ensures forall i :: 0 <= i < |ws| ==> ts[i] == Classify(ws[i])
  {
    if ws == [] then [] else [Classify(ws[0])] + ClassifyAll(ws[1..])
  }

  /** The token sequence `analyzer` returns for `s`. */
  function Tokenize(s: string): (ts: seq<Token>)
    ensures |ts| == |Words(Pad(s))|
    ensures forall k :: 0 <= k < |ts| && ts[k].Symbol? ==>
      ts[k].name != [] && ParseI64(ts[k].name) == None
      && forall j :: 0 <= j < |ts[k].name| ==> !IsWhitespace(ts[k].name[j])
  {
    ClassifyAll(Words(Pad(s)))
  }

  /** `analyzer`: pads, splits and classifies word by word, pushing onto `tokens`. */
  method Analyzer(param: string) returns (r: Result<seq<Token>, LexError>)
    ensures r == Ok(Tokenize(param))
  {
    var words := Words(Pad(param));
    var tokens: seq<Token> := [];
    var i := 0;
    while i < |words|
      invariant 0 <= i <= |words|
      invariant tokens == ClassifyAll(words[..i])
    {
      ghost var before := tokens;
      var word := words[i];
      if word == "(" {
        tokens := tokens + [LParen];
      } else if word == ")" {
        tokens := tokens + [RParen];
      } else {
        var item := ParseI64(word);
        if item.Some? {
          tokens := tokens + [Integer(item.value)];
        } else {
          tokens := tokens + [Symbol(word)];
        }
      }
      ClassifyAllPrefix(words, i);
      i := i + 1;
    }
    TakeAll(words);
    r := Ok(tokens);
  }

  /** Classifying one more word of the prefix appends its token. */
  lemma ClassifyAllPrefix(ws: seq<string>, i: nat)
    requires i < |ws|
    ensures ClassifyAll(ws[..i + 1]) == ClassifyAll(ws[..i]) + [Classify(ws[i])]
  {
    TakeSnoc(ws, i);
    ClassifyAllAppend(ws[..i], [ws[i]]);
  }

  lemma {:induction false} ClassifyAllAppend(a: seq<string>, b: seq<string>)
    ensures ClassifyAll(a + b) == ClassifyAll(a) + ClassifyAll(b)
  {
    if a != [] {
      assert (a + b)[1..] == a[1..] + b;
      ClassifyAllAppend(a[1..], b);
    }
  }

  // ---------------------------------------------------------------------------
  // A direct scanner, the reference the padded split is proved equal to

  /**
   * Scans `s` once: whitespace separates words, every parenthesis is a word of
   * its own, and runs of other characters are words.
   */
  function Lex(s: string): (ws: seq<string>)
    ensures s != [] && IsWordChar(s[0]) ==> ws != [] && ws[0] != [] && ws[0][0] == s[0]
    decreases |s|
  {
    if s == [] then []
    else if IsWhitespace(s[0]) then Lex(s[1..])
    else if IsParen(s[0]) then [[s[0]]] + Lex(s[1..])
    else
      var rest := Lex(s[1..]);
      if |s| > 1 && IsWordChar(s[1]) then [[s[0]] + rest[0]] + rest[1..]
      else [[s[0]]] + rest
  }

  lemma {:induction false} ReplaceAppend(a: string, b: string, c: char, r: string)
    ensures Replace(a + b, c, r) == Replace(a, c, r) + Replace(b, c, r)
  {
    if a != [] {
      assert (a + b)[0] == a[0];
      assert (a + b)[1..] == a[1..] + b;
      ReplaceAppend(a[1..], b, c, r);
    } else {
      assert a + b == b;
    }
  }

  /** What padding turns one character into. */
  function PadChar(c: char): string
  {
    if c == '(' then " ( " else if c == ')' then " ) " else [c]
  }

  lemma PadCons(c: char, t: string)
    ensures Pad([c] + t) == PadChar(c) + Pad(t)
  {
    ReplaceAppend([c], t, '(', " ( ");
    var once := if c == '(' then " ( " else [c];
    assert Replace([c], '(', " ( ") == once;
    ReplaceAppend(once, Replace(t, '(', " ( "), ')', " ) ");
    if c == '(' {
      assert Replace(" ( ", ')', " ) ") == " ( ";
    } else {
      assert Replace([c], ')', " ) ") == PadChar(c);
    }
  }

  lemma PadHead(t: string)
    requires t != []
    ensures Pad(t) != []
    ensures IsWordChar(t[0]) ==> Pad(t)[0] == t[0]
    ensures !IsWordChar(t[0]) ==> IsWhitespace(Pad(t)[0])
  {
    assert t == [t[0]] + t[1..];
    PadCons(t[0], t[1..]);
  }

  lemma WordsWhitespace(c: char, t: string)
    requires IsWhitespace(c)
    ensures Words([c] + t) == Words(t)
  {
    assert ([c] + t)[1..] == t;
  }

  lemma WordsWordStart(c: char, t: string)
    requires !IsWhitespace(c)
    ensures t == [] || IsWhitespace(t[0]) ==> Words([c] + t) == [[c]] + Words(t)
    ensures t != [] && !IsWhitespace(t[0]) ==>
      Words(t) != [] && Words([c] + t) == [[c] + Words(t)[0]] + Words(t)[1..]
  {
    var s := [c] + t;
    assert s[0] == c && s[1..] == t;
    var n := RunLength(t);
    assert RunLength(s) == 1 + n;
    assert s[..1 + n] == [c] + t[..n];
    assert s[1 + n..] == t[n..];
    assert Words(s) == [[c] + t[..n]] + Words(t[n..]);
    if t == [] || IsWhitespace(t[0]) {
      assert n == 0 && t[..n] == [] && t[n..] == t;
    } else {
      assert Words(t) == [t[..n]] + Words(t[n..]);
    }
  }

  /** The padded whitespace split and the direct scanner agree on every input. */
  lemma {:induction false} WordsOfPadIsLex(s: string)
    ensures Words(Pad(s)) == Lex(s)
    decreases |s|
  {
    if s == [] {
      assert Pad(s) == [];
    } else {
      var c, t := s[0], s[1..];
      assert s == [c] + t;
      PadCons(c, t);
      WordsOfPadIsLex(t);
      if IsWhitespace(c) {
        WordsWhitespace(c, Pad(t));
        LexConsBreak(c, t);
      } else if IsParen(c) {
        WordsOfPadParen(c, t);
      } else {
        WordsOfPadWord(c, t);
      }
    }
  }

  /** Step of `WordsOfPadIsLex` for a parenthesis: it becomes a word of its own. */
  lemma WordsOfPadParen(c: char, t: string)
    requires IsParen(c) && Words(Pad(t)) == Lex(t)
    ensures Words(PadChar(c) + Pad(t)) == Lex([c] + t)
  {
    PaddedParen(c, Pad(t));
    WordsSpaced(c, Pad(t));
    LexConsBreak(c, t);
  }

  lemma PaddedParen(c: char, rest: string)
    requires IsParen(c)
    ensures PadChar(c) + rest == [' '] + ([c] + ([' '] + rest))
  {
  }

  /** A character between two spaces is a word of its own. */
  lemma WordsSpaced(c: char, rest: string)
    requires !IsWhitespace(c)
    ensures Words([' '] + ([c] + ([' '] + rest))) == [[c]] + Words(rest)
  {
    WordsWhitespace(' ', [c] + ([' '] + rest));
    WordsWordStart(c, [' '] + rest);
    WordsWhitespace(' ', rest);
  }

  /** Step of `WordsOfPadIsLex` for a word character: it starts or extends a word. */
  lemma WordsOfPadWord(c: char, t: string)
    requires IsWordChar(c) && Words(Pad(t)) == Lex(t)
    ensures Words(PadChar(c) + Pad(t)) == Lex([c] + t)
  {
    assert PadChar(c) == [c];
    if t != [] {
      PadHead(t);
    } else {
      assert Pad(t) == [];
    }
    WordsWordStart(c, Pad(t));
    if t != [] && IsWordChar(t[0]) {
      LexConsWord(c, t);
    } else {
      LexConsBreak(c, t);
    }
  }

  lemma TokenizeIsLex(s: string)
    ensures Tokenize(s) == ClassifyAll(Lex(s))
  {
    WordsOfPadIsLex(s);
  }

  // ---------------------------------------------------------------------------
  // Properties of the scanner

  /** The shape of a scanned word: one parenthesis, or a non-empty run of word characters. */
  predicate WordShape(w: string)
  {
    w == "(" || w == ")" || (w != [] && forall i :: 0 <= i < |w| ==> IsWordChar(w[i]))
  }

  lemma {:induction false} LexShape(s: string)
    ensures forall k :: 0 <= k < |Lex(s)| ==> WordShape(Lex(s)[k])
    decreases |s|
  {
    if s != [] {
      LexShape(s[1..]);
      var rest := Lex(s[1..]);
      if !IsWhitespace(s[0]) && !IsParen(s[0]) && |s| > 1 && IsWordChar(s[1]) {
        var w := [s[0]] + rest[0];
        assert rest[0][0] == s[1];
        assert WordShape(rest[0]);
        assert forall i :: 0 < i < |w| ==> w[i] == rest[0][i - 1];
        assert WordShape(w);
        assert Lex(s) == [w] + rest[1..];
      }
    }
  }

  /** The number of occurrences of `x` in `xs`. */
  function Count<T(==)>(xs: seq<T>, x: T): (n: nat)
    ensures n <= |xs|
  {
    if xs == [] then 0 else (if xs[0] == x then 1 else 0) + Count(xs[1..], x)
  }

  lemma {:induction false} CountIsMultiplicity<T>(xs: seq<T>, x: T)
    ensures Count(xs, x) == multiset(xs)[x]
  {
    if xs != [] {
      assert xs == [xs[0]] + xs[1..];
      CountIsMultiplicity(xs[1..], x);
    }
  }

  lemma {:induction false} CountAppend<T>(a: seq<T>, b: seq<T>, x: T)
    ensures Count(a + b, x) == Count(a, x) + Count(b, x)
  {
    if a != [] {
      assert (a + b)[0] == a[0] && (a + b)[1..] == a[1..] + b;
      CountAppend(a[1..], b, x);
    } else {
      assert a + b == b;
    }
  }

  lemma {:induction false} CountAbsent<T>(a: seq<T>, x: T)
    requires x !in a
    ensures Count(a, x) == 0
  {
    if a != [] {
      CountAbsent(a[1..], x);
    }
  }

  /** Counting the front element separately. */
  lemma CountCons<T>(y: T, xs: seq<T>, x: T)
    ensures Count([y] + xs, x) == (if y == x then 1 else 0) + Count(xs, x)
  {
    assert ([y] + xs)[0] == y && ([y] + xs)[1..] == xs;
  }

  /** Every `(` of the input becomes exactly one "(" word, and likewise every `)`. */
  lemma {:induction false} LexCountsParen(s: string, p: char)
    requires IsParen(p)
    ensures Count(Lex(s), [p]) == Count(s, p)
    decreases |s|
  {
    if s != [] {
      var c, t := s[0], s[1..];
      LexCountsParen(t, p);
      var rest := Lex(t);
      if IsWhitespace(c) {
        assert Lex(s) == rest;
      } else if IsParen(c) {
        assert Lex(s) == [[c]] + rest;
        CountCons([c], rest, [p]);
      } else if |s| > 1 && IsWordChar(s[1]) {
        assert rest[0][0] == s[1];
        assert rest == [rest[0]] + rest[1..];
        CountCons(rest[0], rest[1..], [p]);
        var w := [c] + rest[0];
        assert w[0] == c;
        assert Lex(s) == [w] + rest[1..];
        CountCons(w, rest[1..], [p]);
      } else {
        assert Lex(s) == [[c]] + rest;
        assert [c][0] == c;
        CountCons([c], rest, [p]);
      }
    }
  }

  /** Scanning an all-whitespace text yields no words, and only such texts do. */
  lemma {:induction false} LexEmptyIffBlank(s: string)
    ensures Lex(s) == [] <==> forall i :: 0 <= i < |s| ==> IsWhitespace(s[i])
    decreases |s|
  {
    if s != [] {
      LexEmptyIffBlank(s[1..]);
      assert forall i :: 1 <= i < |s| ==> s[i] == s[1..][i - 1];
    }
  }

  /** Scanning distributes over concatenation at a word boundary. */
  lemma {:induction false} LexAppend(a: string, b: string)
    requires a == [] || b == [] || !IsWordChar(a[|a| - 1]) || !IsWordChar(b[0])
    ensures Lex(a + b) == Lex(a) + Lex(b)
    decreases |a|
  {
    if a == [] {
      assert a + b == b;
    } else if |a| == 1 {
      LexAppendSingle(a[0], b);
      assert a == [a[0]];
    } else {
      var a' := a[1..];
      ConsSplit(a, b);
      LexAppend(a', b);
      LexConsAppend(a[0], a', b);
    }
  }

  /** Scanning a word character followed by another: it joins the first word. */
  lemma LexConsWord(c: char, x: string)
    requires IsWordChar(c) && x != [] && IsWordChar(x[0])
    ensures Lex(x) != [] && Lex([c] + x) == [[c] + Lex(x)[0]] + Lex(x)[1..]
  {
    var s := [c] + x;
    assert s[0] == c && s[1..] == x && s[1] == x[0];
  }

  /** Scanning a character that does not join a following word. */
  lemma LexConsBreak(c: char, x: string)
    requires !IsWordChar(c) || x == [] || !IsWordChar(x[0])
    ensures IsWhitespace(c) ==> Lex([c] + x) == Lex(x)
    ensures !IsWhitespace(c) ==> Lex([c] + x) == [[c]] + Lex(x)
  {
    var s := [c] + x;
    assert s[0] == c && s[1..] == x;
    if x != [] {
      assert s[1] == x[0];
    }
  }

  /** One step of `LexAppend`: a character in front of a non-empty left part. */
  lemma LexConsAppend(c: char, a: string, b: string)
    requires a != [] && Lex(a + b) == Lex(a) + Lex(b)
    ensures Lex([c] + (a + b)) == Lex([c] + a) + Lex(b)
  {
    if IsWordChar(c) && IsWordChar(a[0]) {
      LexGlued(c, a, b);
    } else {
      LexSeparate(c, a, b);
    }
  }

  lemma LexSeparate(c: char, a: string, b: string)
    requires a != [] && (!IsWordChar(c) || !IsWordChar(a[0]))
    requires Lex(a + b) == Lex(a) + Lex(b)
    ensures Lex([c] + (a + b)) == Lex([c] + a) + Lex(b)
  {
    var ab := a + b;
    assert ab[0] == a[0];
    var l1, l2 := Lex([c] + ab), Lex([c] + a);
    var lab, la, lb := Lex(ab), Lex(a), Lex(b);
    if IsWhitespace(c) {
      assert l1 == lab && l2 == la by {
        LexConsBreak(c, ab);
        LexConsBreak(c, a);
      }
    } else {
      assert l1 == [[c]] + lab && l2 == [[c]] + la by {
        LexConsBreak(c, ab);
        LexConsBreak(c, a);
      }
      AppendAssoc([[c]], la, lb);
    }
  }

  lemma LexGlued(c: char, a: string, b: string)
    requires a != [] && IsWordChar(c) && IsWordChar(a[0])
    requires Lex(a + b) == Lex(a) + Lex(b)
    ensures Lex([c] + (a + b)) == Lex([c] + a) + Lex(b)
  {
    var la, lb := Lex(a), Lex(b);
    assert la != [];
    assert Lex([c] + (a + b)) == [[c] + (la + lb)[0]] + (la + lb)[1..] by {
      assert (a + b)[0] == a[0];
      LexConsWord(c, a + b);
    }
    assert Lex([c] + a) == [[c] + la[0]] + la[1..] by {
      LexConsWord(c, a);
    }
    GlueAppend([c], la, lb);
  }

  /** Joining a prefix onto the first word commutes with appending more words. */
  lemma GlueAppend(p: string, la: seq<string>, lb: seq<string>)
    requires la != []
    ensures [p + (la + lb)[0]] + (la + lb)[1..] == ([p + la[0]] + la[1..]) + lb
  {
    assert (la + lb)[0] == la[0];
    assert (la + lb)[1..] == la[1..] + lb;
  }

  /** The base case of `LexAppend`: a one-character left part. */
  lemma LexAppendSingle(c: char, b: string)
    requires b == [] || !IsWordChar(c) || !IsWordChar(b[0])
    ensures Lex([c] + b) == Lex([c]) + Lex(b)
  {
    LexConsBreak(c, b);
    LexSingle(c);
    if IsWhitespace(c) {
      AppendEmpty(Lex(b));
    }
  }

  /** A single character is no word if it is whitespace, and a word of its own otherwise. */
  lemma LexSingle(c: char)
    ensures IsWhitespace(c) ==> Lex([c]) == []
    ensures !IsWhitespace(c) ==> Lex([c]) == [[c]]
  {
    assert [c][0] == c && [c][1..] == [];
  }

  /** A non-empty run of word characters is scanned as one word. */
  lemma {:induction false} LexWord(w: string)
    requires w != [] && forall i :: 0 <= i < |w| ==> IsWordChar(w[i])
    ensures Lex(w) == [w]
    decreases |w|
  {
    ConsSplit(w, []);
    var t := w[1..];
    if |w| > 1 {
      assert IsWordChar(w[0]) && IsWordChar(t[0]);
      LexWord(t);
      LexConsWord(w[0], t);
      Singleton(t);
    } else {
      assert IsWordChar(w[0]);
      LexSingle(w[0]);
    }
  }

  // ---------------------------------------------------------------------------
  // Properties of the tokenizer

  lemma {:induction false} ClassifyAllCounts(ws: seq<string>, p: char)
    requires IsParen(p)
    ensures Count(ClassifyAll(ws), if p == '(' then LParen else RParen) == Count(ws, [p])
  {
    if ws != [] {
      ClassifyAllCounts(ws[1..], p);
      assert ClassifyAll(ws) == [Classify(ws[0])] + ClassifyAll(ws[1..]);
      CountCons(Classify(ws[0]), ClassifyAll(ws[1..]), if p == '(' then LParen else RParen);
      if Classify(ws[0]) == LParen || Classify(ws[0]) == RParen {
        assert ws[0] == "(" || ws[0] == ")";
      }
    }
  }

  /** The number of `LParen` (`RParen`) tokens is the number of `(` (`)`) characters. */
  lemma TokenizeCountsParens(s: string)
    ensures multiset(Tokenize(s))[LParen] == multiset(s)['(']
    ensures multiset(Tokenize(s))[RParen] == multiset(s)[')']
  {
    TokenizeIsLex(s);
    LexCountsParen(s, '(');
    LexCountsParen(s, ')');
    ClassifyAllCounts(Lex(s), '(');
    ClassifyAllCounts(Lex(s), ')');
    CountIsMultiplicity(Tokenize(s), LParen);
    CountIsMultiplicity(Tokenize(s), RParen);
    CountIsMultiplicity(s, '(');
    CountIsMultiplicity(s, ')');
  }

  /** No symbol token is empty or holds whitespace or a parenthesis. */
  lemma TokenizeSymbols(s: string)
    ensures forall k :: 0 <= k < |Tokenize(s)| && Tokenize(s)[k].Symbol? ==>
      var w := Tokenize(s)[k].name;
      w != [] && forall i :: 0 <= i < |w| ==> IsWordChar(w[i])
  {
    TokenizeIsLex(s);
    LexShape(s);
  }

  /** All-whitespace input, and only that, yields no tokens. */
  lemma TokenizeBlank(s: string)
    ensures Tokenize(s) == [] <==> forall i :: 0 <= i < |s| ==> IsWhitespace(s[i])
  {
    TokenizeIsLex(s);
    LexEmptyIffBlank(s);
  }

  /** Tokens keep the left-to-right order of the text: a space splits the token sequence. */
  lemma TokenizeAppend(a: string, b: string)
    ensures Tokenize(a + " " + b) == Tokenize(a) + Tokenize(b)
  {
    TokenizeIsLex(a + " " + b);
    TokenizeIsLex(a);
    TokenizeIsLex(b);
    LexSpaceJoin(a, b);
    ClassifyAllAppend(Lex(a), Lex(b));
  }

  /** Two texts joined by a space are scanned as the words of one, then those of the other. */
  lemma LexSpaceJoin(a: string, b: string)
    ensures Lex(a + " " + b) == Lex(a) + Lex(b)
  {
    AppendAssoc(a, " ", b);
    LexAppend(a, " " + b);
    LexConsBreak(' ', b);
  }

  /** The tokenizer test in `src/lexzer.rs`: `(+ 1 2)`. */
  lemma TokenizeExample()
    ensures Tokenize("(+ 1 2)") == [LParen, Symbol("+"), Integer(1), Integer(2), RParen]
  {
    LexExample();
    ClassifyExample();
    TokenizeIsLex("(+ 1 2)");
  }

  lemma LexExample()
    ensures Lex("(+ 1 2)") == ["(", "+", "1", "2", ")"]
  {
    LexSpaceJoin("(+", "1" + " " + "2)");
    LexSpaceJoin("1", "2)");
    assert "(+" + " " + ("1" + " " + "2)") == "(+ 1 2)";
    LexConsBreak('(', "+");
    LexSingle('+');
    LexConsBreak('2', ")");
    LexSingle(')');
    LexSingle('1');
  }

  lemma ClassifyExample()
    ensures ClassifyAll(["(", "+", "1", "2", ")"]) == [LParen, Symbol("+"), Integer(1), Integer(2), RParen]
  {
    assert DigitsValue("1") == 1 && DigitsValue("2") == 2;
    assert ParseI64("+").None?;
  }

  /** A word is an `Integer` token exactly when `str::parse::<i64>` accepts it. */
  lemma ClassifyInteger(w: string, n: I64)
    ensures Classify(w) == Integer(n) <==> ParseI64(w) == Some(n)
    ensures Classify(w).Symbol? <==> w != "(" && w != ")" && ParseI64(w) == None
  {
    if w == "(" || w == ")" {
      assert !IsDigit(w[0]);
    }
  }

  // ---------------------------------------------------------------------------
  // Decimal numerals: the printed form of an integer is parsed back to it

  function NatDigits(m: nat): (ds: string)
    ensures ds != [] && AllDigits(ds)
  {
    if m < 10 then ['0' + m as char]
    else NatDigits(m / 10) + ['0' + (m % 10) as char]
  }

  /** The decimal numeral of `n`, with a leading `-` when negative. */
  function Decimal(n: I64): string
  {
    if n < 0 then "-" + NatDigits(-(n as int)) else NatDigits(n as int)
  }

  lemma {:induction false} NatDigitsValue(m: nat)
    ensures DigitsValue(NatDigits(m)) == m
  {
    if m >= 10 {
      NatDigitsValue(m / 10);
      var ds := NatDigits(m);
      assert ds[..|ds| - 1] == NatDigits(m / 10);
    }
  }

  /** Parsing the numeral of any 64-bit integer gives that integer back. */
  lemma ParseDecimal(n: I64)
    ensures ParseI64(Decimal(n)) == Some(n)
  {
    var w := Decimal(n);
    if n < 0 {
      NatDigitsValue(-(n as int));
      assert w[1..] == NatDigits(-(n as int));
    } else {
      NatDigitsValue(n as int);
      assert IsDigit(w[0]);
    }
  }

  lemma DecimalIsWord(n: I64)
    ensures Decimal(n) != [] && forall i :: 0 <= i < |Decimal(n)| ==> IsWordChar(Decimal(n)[i])
  {
    var w := Decimal(n);
    if n < 0 {
      forall i | 1 <= i < |w| ensures IsDigit(w[i]) {
        assert w[i] == NatDigits(-(n as int))[i - 1];
      }
    }
  }
}
