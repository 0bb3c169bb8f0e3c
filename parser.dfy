/**
 * The recursive-descent parser (`src/parser.rs`): the token sequence is
 * reversed into a stack, and `parse_list` pops tokens from it, building one
 * `List` per parenthesised group.
 */
module Parser {
  import opened Wrappers
  import opened Objects
  import opened Lexer

  /** Why a parse failed. The source only carries a message; these are its kinds. */
  datatype ParseError =
    | LexFailed(cause: LexError)               // src/parser.rs:21-25
    | ExpectedLParen(found: Option<Token>)     // src/parser.rs:39-43

  // ---------------------------------------------------------------------------
  // The token stack

  /** `s` back to front; the stack holds the tokens reversed. */
  function Reverse<T>(s: seq<T>): (r: seq<T>)
    ensures |r| == |s|
  {
    if s == [] then [] else Reverse(s[1..]) + [s[0]]
  }

  lemma {:induction false} ReversePush<T>(s: seq<T>, x: T)
    ensures Reverse(s + [x]) == [x] + Reverse(s)
  {
    if s != [] {
      assert (s + [x])[1..] == s[1..] + [x];
      ReversePush(s[1..], x);
    }
  }

  /** The mutable `Vec<Analyzer>` that `parse_list` pops from; its top is the last element. */
  class TokenStack {
    var items: seq<Token>

    constructor ()
      ensures items == []
    {
      items := [];
    }

    /** The tokens still to be read, in the order they will be popped. */
    function Remaining(): seq<Token>
      reads this
    {
      Reverse(items)
    }

    predicate IsEmpty()
      reads this
      ensures IsEmpty() <==> Remaining() == []
    {
      items == []
    }

    /** `Vec::pop`: removes and returns the next token, `None` when there is none. */
    method Pop() returns (t: Option<Token>)
      modifies this
      ensures old(Remaining()) == [] ==> t == None && Remaining() == []
      ensures old(Remaining()) != [] ==> t == Some(old(Remaining())[0]) && Remaining() == old(Remaining())[1..]
    {
      if items == [] {
        t := None;
      } else {
        var last := items[|items| - 1];
        var rest := items[..|items| - 1];
        assert items == rest + [last];
        ReversePush(rest, last);
        items := rest;
        t := Some(last);
      }
    }

    /** `Vec::push`: `x` becomes the next token. */
    method Push(x: Token)
      modifies this
      ensures Remaining() == [x] + old(Remaining())
    {
      ReversePush(items, x);
      items := items + [x];
    }
  }

  // ---------------------------------------------------------------------------
  // What parsing computes, over the remaining tokens in reading order

  /**
   * `parse_list` on a stack whose remaining tokens are `ts`: the parsed list
   * (or error) and the tokens left over.
   */
  function ParsedList(ts: seq<Token>): (r: (Result<Object, ParseError>, seq<Token>))
    ensures |r.1| <= |ts| && (ts != [] ==> |r.1| < |ts|)
    ensures r.0.Ok? <==> ts != [] && ts[0] == LParen
    ensures r.0.Ok? ==> r.0.value.List?
    decreases |ts|, 0
  {
    if ts == [] then (Err(ExpectedLParen(None)), [])
    else if ts[0] != LParen then (Err(ExpectedLParen(Some(ts[0]))), ts[1..])
    else ParsedElems(ts[1..], [])
  }

  /**
   * The loop of `parse_list` (src/parser.rs:46-67) once the opening `(` is
   * consumed, with `acc` the elements collected so far.
   */
  function ParsedElems(ts: seq<Token>, acc: seq<Object>): (r: (Result<Object, ParseError>, seq<Token>))
    ensures |r.1| <= |ts|
    ensures r.0.Ok? && r.0.value.List?
    decreases |ts|, 1
  {
    if ts == [] then (Ok(List(acc)), [])
    else match ts[0]
      case Integer(n) => ParsedElems(ts[1..], acc + [Object.Integer(n)])
      case Symbol(s) => ParsedElems(ts[1..], acc + [Object.Symbol(s)])
      case RParen => (Ok(List(acc)), ts[1..])
      case LParen =>
        // the opening token is pushed back and parsed by a nested call
        var (sub, rest) := ParsedList(ts);
        ParsedElems(rest, acc + [sub.value])
  }

  /** `u` is what is left of `ts` after reading some tokens from its front. */
  predicate IsSuffix<T(==)>(u: seq<T>, ts: seq<T>)
  {
    |u| <= |ts| && u == ts[|ts| - |u|..]
  }

  /** `ys` starts with `acc`. */
  predicate Extends<T(==)>(ys: seq<T>, acc: seq<T>)
  {
    |ys| >= |acc| && ys[..|acc|] == acc
  }

  lemma SuffixTrans<T>(w: seq<T>, u: seq<T>, ts: seq<T>)
    requires IsSuffix(w, u) && IsSuffix(u, ts)
    ensures IsSuffix(w, ts)
  {
    assert ts[|ts| - |u|..][|u| - |w|..] == ts[|ts| - |w|..];
  }

  lemma ExtendsTrans<T>(ys: seq<T>, acc: seq<T>, v: T)
    requires Extends(ys, acc + [v])
    ensures Extends(ys, acc)
  {
    assert ys[..|acc|] == ys[..|acc| + 1][..|acc|];
    assert (acc + [v])[..|acc|] == acc;
  }

  /**
   * Parsing only consumes tokens from the front, and the loop only appends to
   * the elements collected so far.
   */
  lemma {:induction false} ParsedListSuffix(ts: seq<Token>)
    ensures IsSuffix(ParsedList(ts).1, ts)
    decreases |ts|, 0
  {
    if ts != [] && ts[0] == LParen {
      ParsedElemsSuffix(ts[1..], []);
      SuffixTrans(ParsedList(ts).1, ts[1..], ts);
    } else if ts != [] {
      assert ts[1..] == ts[|ts| - |ts[1..]|..];
    }
  }

  lemma {:induction false} ParsedElemsSuffix(ts: seq<Token>, acc: seq<Object>)
    ensures IsSuffix(ParsedElems(ts, acc).1, ts)
    ensures Extends(ParsedElems(ts, acc).0.value.items, acc)
    decreases |ts|, 1
  {
    if ts == [] {
    } else if ts[0] == RParen {
      assert ts[1..] == ts[|ts| - |ts[1..]|..];
    } else if ts[0] == LParen {
      var rest := ParsedList(ts).1;
      var v := ParsedList(ts).0.value;
      ParsedElemsNested(ts, acc);
      ParsedListSuffix(ts);
      ParsedElemsSuffix(rest, acc + [v]);
      SuffixTrans(ParsedElems(ts, acc).1, rest, ts);
      ExtendsTrans(ParsedElems(ts, acc).0.value.items, acc, v);
    } else {
      assert ts == [ts[0]] + ts[1..];
      ParsedElemsAtom(ts[0], ts[1..], acc);
      ParsedElemsSuffix(ts[1..], acc + [AtomObject(ts[0])]);
      assert IsSuffix(ts[1..], ts);
      SuffixTrans(ParsedElems(ts, acc).1, ts[1..], ts);
      ExtendsTrans(ParsedElems(ts, acc).0.value.items, acc, AtomObject(ts[0]));
    }
  }

  /** `parse` on a token sequence. */
  function ParseTokens(ts: seq<Token>): Result<Object, ParseError>
  {
    ParsedList(ts).0
  }

  /** `parse` on a text. */
  function ParseText(s: string): (r: Result<Object, ParseError>)
    ensures r.Ok? <==> Tokenize(s) != [] && Tokenize(s)[0] == LParen
    ensures r.Ok? ==> r.value.List?
  {
    ParseOkIff(Tokenize(s));
    ParseTokens(Tokenize(s))
  }

  // ---------------------------------------------------------------------------
  // The imperative parser

  /** `parse_list`: pops `(`, then collects elements until the matching `)` or the end. */
  method ParseList(stack: TokenStack) returns (r: Result<Object, ParseError>)
    modifies stack
    ensures (r, stack.Remaining()) == ParsedList(old(stack.Remaining()))
    decreases |stack.items|
  {
    ghost var start := stack.Remaining();
    var token := stack.Pop();
    if token != Some(LParen) {
      return Err(ExpectedLParen(token));
    }
    var list: seq<Object> := [];
    while !stack.IsEmpty()
      invariant |stack.items| < old(|stack.items|)
      invariant ParsedElems(stack.Remaining(), list) == ParsedList(start)
      decreases |stack.items|
    {
      ghost var before := stack.Remaining();
      var next := stack.Pop();
      match next {
        case None =>
          // src/parser.rs:48-52 cannot happen: the loop runs only while the stack is non-empty
          assert false;
        case Some(t) =>
          match t {
            case Integer(n) =>
              list := list + [Object.Integer(n)];
            case Symbol(s) =>
              list := list + [Object.Symbol(s)];
            case LParen =>
              stack.Push(LParen);
              assert stack.Remaining() == before;
              var sub := ParseList(stack);
              // the nested call starts at `(`, so it cannot fail and `?` never propagates
              list := list + [sub.value];
            case RParen =>
              return Ok(List(list));
          }
      }
    }
    r := Ok(List(list));
  }

  /** `parse`: tokenizes, reverses the tokens into a stack and parses one list. */
  method Parse(param: string) returns (r: Result<Object, ParseError>)
    ensures r == ParseText(param)
  {
    var lexed := Analyzer(param);
    if lexed.Err? {
      // `analyzer` never fails
      assert false;
    }
    var stack := StackOf(lexed.value);
    r := ParseList(stack);
  }

  /** `into_iter().rev().collect()`: a new stack from which `tokens` pop in order. */
  method StackOf(tokens: seq<Token>) returns (stack: TokenStack)
    ensures fresh(stack)
    ensures stack.Remaining() == tokens
  {
    stack := new TokenStack();
    assert stack.Remaining() == [];
    var i := |tokens|;
    while i > 0
      invariant 0 <= i <= |tokens|
      invariant stack.Remaining() == tokens[i..]
    {
      i := i - 1;
      assert tokens[i..] == [tokens[i]] + tokens[i + 1..];
      stack.Push(tokens[i]);
    }
    assert tokens[0..] == tokens;
  }

  // ---------------------------------------------------------------------------
  // Properties of parsing

  /** Parsing succeeds exactly when the first token is `(`; empty input fails. */
  lemma ParseOkIff(ts: seq<Token>)
    ensures ParseTokens(ts).Ok? <==> ts != [] && ts[0] == LParen
    ensures ts == [] ==> ParseTokens(ts) == Err(ExpectedLParen(None))
    ensures ParseTokens(ts).Ok? ==> ParseTokens(ts).value.List?
  {
  }

  /** The object an atom token is copied as. */
  function AtomObject(t: Token): Object
    requires t.Integer? || t.Symbol?
  {
    if t.Integer? then Object.Integer(t.n) else Object.Symbol(t.name)
  }

  /** A tree the parser can produce: integers, symbols and lists of such trees. */
  predicate IsTree(x: Object)
    decreases Size(x), 0
  {
    match x
    case Integer(_) => true
    case Symbol(_) => true
    case List(xs) => AreTrees(xs)
    case _ => false
  }

  predicate AreTrees(xs: seq<Object>)
    decreases SizeAll(xs), 1
  {
    xs == [] || (IsTree(xs[0]) && AreTrees(xs[1..]))
  }

  /** The tokens of a tree: atoms as themselves, a list between `(` and `)`. */
  function Serialize(x: Object): seq<Token>
    requires IsTree(x)
    decreases Size(x), 0
  {
    match x
    case Integer(n) => [Lexer.Integer(n)]
    case Symbol(s) => [Lexer.Symbol(s)]
    case List(xs) => [LParen] + SerializeAll(xs) + [RParen]
  }

  function SerializeAll(xs: seq<Object>): seq<Token>
    requires AreTrees(xs)
    decreases SizeAll(xs), 1
  {
    if xs == [] then [] else Serialize(xs[0]) + SerializeAll(xs[1..])
  }

  /**
   * Parsing the tokens of a sequence of trees, followed by a closing `)` or by
   * nothing, collects exactly those trees; after `)` the rest is left unread.
   */
  lemma {:induction false} ParsedElemsSerialized(xs: seq<Object>, tail: seq<Token>, acc: seq<Object>)
    requires AreTrees(xs)
    requires tail == [] || tail[0] == RParen
    ensures ParsedElems(SerializeAll(xs) + tail, acc) == (Ok(List(acc + xs)), if tail == [] then [] else tail[1..])
    decreases SizeAll(xs)
  {
    if xs == [] {
      assert SerializeAll(xs) + tail == tail;
      assert acc + xs == acc;
      ParsedElemsEnd(tail, acc);
    } else {
      SerializeAllCons(xs, tail);
      var x, more := xs[0], xs[1..];
      var after := SerializeAll(more) + tail;
      ParsedElemsSerialized(more, tail, acc + [x]);
      if x.List? {
        ParsedElemsSerialized(x.items, [RParen] + after, []);
      }
      ParsedElemsTree(x, after, acc);
      ParsedElemsChain(Serialize(x) + after, after, acc, x, more);
      assert xs == [x] + more;
    }
  }

  /** Reading the first tree and then the rest collects all of them. */
  lemma ParsedElemsChain(ts: seq<Token>, after: seq<Token>, acc: seq<Object>, x: Object, more: seq<Object>)
    requires ParsedElems(ts, acc) == ParsedElems(after, acc + [x])
    ensures ParsedElems(after, acc + [x]) == (Ok(List((acc + [x]) + more)), ParsedElems(after, acc + [x]).1) ==>
            ParsedElems(ts, acc) == (Ok(List(acc + ([x] + more))), ParsedElems(after, acc + [x]).1)
  {
    assert (acc + [x]) + more == acc + ([x] + more);
  }

  /** How the tokens of a non-empty sequence of trees split at its first tree. */
  lemma SerializeAllCons(xs: seq<Object>, tail: seq<Token>)
    requires xs != [] && AreTrees(xs)
    ensures IsTree(xs[0]) && AreTrees(xs[1..])
    ensures SizeAll(xs[1..]) < SizeAll(xs)
    ensures xs[0].List? ==> AreTrees(xs[0].items) && SizeAll(xs[0].items) < SizeAll(xs)
    ensures SerializeAll(xs) + tail == Serialize(xs[0]) + (SerializeAll(xs[1..]) + tail)
  {
    assert SizeAll(xs) == Size(xs[0]) + SizeAll(xs[1..]);
    if xs[0].List? {
      assert Size(xs[0]) == 1 + SizeAll(xs[0].items);
    }
  }

  /** A tree at the front is parsed as one element, leaving the tokens after it. */
  lemma ParsedElemsTree(x: Object, after: seq<Token>, acc: seq<Object>)
    requires IsTree(x)
    requires x.List? ==> AreTrees(x.items)
    requires x.List? ==> ParsedElems(SerializeAll(x.items) + ([RParen] + after), [])
                         == (Ok(List([] + x.items)), if [RParen] + after == [] then [] else ([RParen] + after)[1..])
    ensures ParsedElems(Serialize(x) + after, acc) == ParsedElems(after, acc + [x])
  {
    if x.List? {
      assert [] + x.items == x.items && ([RParen] + after)[1..] == after;
      ParsedElemsList(x.items, after, acc);
    } else {
      ParsedElemsAtom(Serialize(x)[0], after, acc);
    }
  }

  lemma ParsedElemsList(ys: seq<Object>, after: seq<Token>, acc: seq<Object>)
    requires AreTrees(ys)
    requires ParsedElems(SerializeAll(ys) + ([RParen] + after), []) == (Ok(List(ys)), after)
    ensures ParsedElems(Serialize(List(ys)) + after, acc) == ParsedElems(after, acc + [List(ys)])
  {
    var body := SerializeAll(ys) + ([RParen] + after);
    assert Serialize(List(ys)) + after == [LParen] + body;
    ParsedListOpen(body);
    ParsedElemsNested([LParen] + body, acc);
  }

  /** The loop ends at `)` or when the tokens run out. */
  lemma ParsedElemsEnd(tail: seq<Token>, acc: seq<Object>)
    requires tail == [] || tail[0] == RParen
    ensures ParsedElems(tail, acc) == (Ok(List(acc)), if tail == [] then [] else tail[1..])
  {
  }

  /** After an opening `(`, `parse_list` runs its loop from an empty list. */
  lemma ParsedListOpen(body: seq<Token>)
    ensures ParsedList([LParen] + body) == ParsedElems(body, [])
  {
    assert ([LParen] + body)[1..] == body;
  }

  /** One element step of the loop for an atom token. */
  lemma ParsedElemsAtom(t: Token, after: seq<Token>, acc: seq<Object>)
    requires t.Integer? || t.Symbol?
    ensures ParsedElems([t] + after, acc) == ParsedElems(after, acc + [AtomObject(t)])
  {
    assert ([t] + after)[0] == t && ([t] + after)[1..] == after;
  }

  /** One element step of the loop for a nested list: a nested `parse_list` call. */
  lemma ParsedElemsNested(ts: seq<Token>, acc: seq<Object>)
    requires ts != [] && ts[0] == LParen
    ensures ParsedElems(ts, acc) == ParsedElems(ParsedList(ts).1, acc + [ParsedList(ts).0.value])
  {
  }

  /**
   * Round trip on tokens: the tokens of any tree parse back to that tree, and
   * whatever follows its closing `)` is ignored.
   */
  lemma ParseSerialized(xs: seq<Object>, extra: seq<Token>)
    requires IsTree(List(xs))
    ensures ParsedList(Serialize(List(xs)) + extra) == (Ok(List(xs)), extra)
    ensures ParseTokens(Serialize(List(xs)) + extra) == Ok(List(xs))
  {
    var body := SerializeAll(xs) + ([RParen] + extra);
    assert Serialize(List(xs)) + extra == [LParen] + body;
    ParsedListOpen(body);
    ParsedElemsSerialized(xs, [RParen] + extra, []);
    assert ([RParen] + extra)[1..] == extra && [] + xs == xs;
  }

  /** A list whose closing `)` never comes is returned as far as it got, without error. */
  lemma ParseUnclosed(xs: seq<Object>)
    requires AreTrees(xs)
    ensures ParsedList([LParen] + SerializeAll(xs)) == (Ok(List(xs)), [])
  {
    ParsedListOpen(SerializeAll(xs));
    assert SerializeAll(xs) + [] == SerializeAll(xs) && [] + xs == xs;
    ParsedElemsSerialized(xs, [], []);
  }

  /** Integer and symbol tokens are copied into the list under construction, in order. */
  lemma {:induction false} ParsedAtoms(ts: seq<Token>, acc: seq<Object>)
    requires forall i :: 0 <= i < |ts| ==> ts[i].Integer? || ts[i].Symbol?
    ensures ParsedElems(ts, acc).0 == Ok(List(acc + seq(|ts|, i requires 0 <= i < |ts| => AtomObject(ts[i]))))
  {
    if ts == [] {
      assert acc + [] == acc;
    } else {
      ParsedAtoms(ts[1..], acc + [AtomObject(ts[0])]);
      var objs := seq(|ts|, i requires 0 <= i < |ts| => AtomObject(ts[i]));
      var rest := seq(|ts| - 1, i requires 0 <= i < |ts| - 1 => AtomObject(ts[1..][i]));
      assert objs == [AtomObject(ts[0])] + rest;
      assert acc + objs == (acc + [AtomObject(ts[0])]) + rest;
    }
  }

  // ---------------------------------------------------------------------------
  // Round trip through the text

  /** A symbol that prints as one word that does not read back as an integer. */
  predicate IsPrintableName(s: string)
  {
    s != [] && (forall i :: 0 <= i < |s| ==> IsWordChar(s[i])) && ParseI64(s) == None
  }

  /** A list tree whose symbols are all printable. */
  predicate IsPrintable(x: Object)
    decreases Size(x), 0
  {
    match x
    case Integer(_) => true
    case Symbol(s) => IsPrintableName(s)
    case List(xs) => ArePrintable(xs)
    case _ => false
  }

  predicate ArePrintable(xs: seq<Object>)
    decreases SizeAll(xs), 1
  {
    xs == [] || (IsPrintable(xs[0]) && ArePrintable(xs[1..]))
  }

  lemma {:induction false} PrintableIsTree(x: Object)
    requires IsPrintable(x)
    ensures IsTree(x)
    decreases Size(x), 0
  {
    if x.List? {
      PrintableAreTrees(x.items);
    }
  }

  lemma {:induction false} PrintableAreTrees(xs: seq<Object>)
    requires ArePrintable(xs)
    ensures AreTrees(xs)
    decreases SizeAll(xs), 1
  {
    if xs != [] {
      PrintableIsTree(xs[0]);
      PrintableAreTrees(xs[1..]);
    }
  }

  /** The surface form of a tree: atoms as words, lists in parentheses, single spaces. */
  function Print(x: Object): string
    requires IsPrintable(x)
    decreases Size(x), 0
  {
    match x
    case Integer(n) => Decimal(n)
    case Symbol(s) => s
    case List(xs) => "(" + PrintAll(xs) + ")"
  }

  function PrintAll(xs: seq<Object>): string
    requires ArePrintable(xs)
    decreases SizeAll(xs), 1
  {
    if xs == [] then ""
    else if |xs| == 1 then Print(xs[0])
    else Print(xs[0]) + " " + PrintAll(xs[1..])
  }

  lemma {:induction false} TokenizePrinted(x: Object)
    requires IsPrintable(x)
    ensures IsTree(x) && ClassifyAll(Lex(Print(x))) == Serialize(x)
    decreases Size(x), 0
  {
    PrintableIsTree(x);
    match x {
      case Integer(n) => TokenizePrintedInteger(n);
      case Symbol(s) => TokenizePrintedSymbol(s);
      case List(xs) =>
        TokenizePrintedAll(xs);
        TokenizePrintedList(xs);
    }
  }

  lemma TokenizePrintedInteger(n: I64)
    ensures ClassifyAll(Lex(Decimal(n))) == [Lexer.Integer(n)]
  {
    DecimalIsWord(n);
    LexWord(Decimal(n));
    ParseDecimal(n);
    assert Decimal(n) != "(" && Decimal(n) != ")";
  }

  lemma TokenizePrintedSymbol(s: string)
    requires IsPrintableName(s)
    ensures ClassifyAll(Lex(s)) == [Lexer.Symbol(s)]
  {
    LexWord(s);
    assert s != "(" && s != ")" by { assert IsWordChar(s[0]); }
  }

  lemma TokenizePrintedList(xs: seq<Object>)
    requires ArePrintable(xs) && AreTrees(xs)
    requires ClassifyAll(Lex(PrintAll(xs))) == SerializeAll(xs)
    ensures ClassifyAll(Lex("(" + PrintAll(xs) + ")")) == [LParen] + SerializeAll(xs) + [RParen]
  {
    LexParens(PrintAll(xs));
    ClassifyParens(Lex(PrintAll(xs)));
  }

  /** Parentheses around a text are scanned as words of their own. */
  lemma LexParens(inner: string)
    ensures Lex("(" + inner + ")") == ["("] + Lex(inner) + [")"]
  {
    assert "(" + inner + ")" == "(" + (inner + ")");
    LexAppend(inner, ")");
    LexWord1(')');
    LexAppend("(", inner + ")");
    LexWord1('(');
  }

  lemma ClassifyParens(ws: seq<string>)
    ensures ClassifyAll(["("] + ws + [")"]) == [LParen] + ClassifyAll(ws) + [RParen]
  {
    ClassifyAllAppend(["("] + ws, [")"]);
    ClassifyAllAppend(["("], ws);
  }

  lemma LexWord1(c: char)
    requires IsParen(c)
    ensures Lex([c]) == [[c]]
  {
    assert [c][1..] == [];
  }

  lemma {:induction false} TokenizePrintedAll(xs: seq<Object>)
    requires ArePrintable(xs)
    ensures AreTrees(xs) && ClassifyAll(Lex(PrintAll(xs))) == SerializeAll(xs)
    decreases SizeAll(xs), 1
  {
    PrintableAreTrees(xs);
    if xs == [] {
    } else if |xs| == 1 {
      TokenizePrinted(xs[0]);
      assert xs[1..] == [];
    } else {
      var head, tail := Print(xs[0]), PrintAll(xs[1..]);
      TokenizePrinted(xs[0]);
      TokenizePrintedAll(xs[1..]);
      assert head + " " + tail == head + (" " + tail);
      LexAppend(head, " " + tail);
      assert (" " + tail)[1..] == tail;
      ClassifyAllAppend(Lex(head), Lex(tail));
    }
  }

  /** Round trip on text: printing a list tree and parsing the text gives the tree back. */
  lemma ParsePrinted(xs: seq<Object>)
    requires IsPrintable(List(xs))
    ensures ParseText(Print(List(xs))) == Ok(List(xs))
  {
    TokenizePrinted(List(xs));
    TokenizeIsLex(Print(List(xs)));
    ParseSerialized(xs, []);
    assert Serialize(List(xs)) + [] == Serialize(List(xs));
  }

  /** Prepending a printable tree: the printed words are separated by one space. */
  lemma PrintAllCons(x: Object, xs: seq<Object>)
    requires IsPrintable(x) && ArePrintable(xs)
    ensures ArePrintable([x] + xs)
    ensures PrintAll([x] + xs) == if xs == [] then Print(x) else Print(x) + " " + PrintAll(xs)
  {
    assert ([x] + xs)[0] == x && ([x] + xs)[1..] == xs;
  }

  lemma SerializeAllCons1(x: Object, xs: seq<Object>)
    requires IsTree(x) && AreTrees(xs)
    ensures AreTrees([x] + xs) && SerializeAll([x] + xs) == Serialize(x) + SerializeAll(xs)
  {
    assert ([x] + xs)[0] == x && ([x] + xs)[1..] == xs;
  }

  /** A one-digit integer prints as its digit. */
  lemma PrintDigit(d: I64)
    requires 0 <= d <= 9
    ensures IsPrintable(Object.Integer(d)) && Print(Object.Integer(d)) == ['0' + d as char]
  {
  }

  lemma PrintPlus()
    ensures IsPrintable(Object.Symbol("+")) && Print(Object.Symbol("+")) == "+"
  {
    assert ParseI64("+") == None;
  }

  lemma SerializeExample()
    ensures IsTree(List([Object.Symbol("+"), Object.Integer(1), Object.Integer(2)]))
    ensures Serialize(List([Object.Symbol("+"), Object.Integer(1), Object.Integer(2)]))
         == [LParen, Lexer.Symbol("+"), Lexer.Integer(1), Lexer.Integer(2), RParen]
  {
    var plus, one, two := Object.Symbol("+"), Object.Integer(1), Object.Integer(2);
    assert AreTrees([]) && SerializeAll([]) == [];
    SerializeAllCons1(two, []);
    assert [two] + [] == [two];
    SerializeAllCons1(one, [two]);
    assert [one] + [two] == [one, two];
    SerializeAllCons1(plus, [one, two]);
    assert [plus] + [one, two] == [plus, one, two];
  }

  lemma PrintExample()
    ensures IsPrintable(List([Object.Symbol("+"), Object.Integer(1), Object.Integer(2)]))
    ensures Print(List([Object.Symbol("+"), Object.Integer(1), Object.Integer(2)])) == "(+ 1 2)"
  {
    var plus, one, two := Object.Symbol("+"), Object.Integer(1), Object.Integer(2);
    PrintPlus();
    PrintDigit(1);
    PrintDigit(2);
    PrintLast(two);
    PrintStep(one, [two], "1", "2");
    assert [one] + [two] == [one, two];
    PrintStep(plus, [one, two], "+", "1" + " " + "2");
    assert [plus] + [one, two] == [plus, one, two];
    PrintParens([plus, one, two], "+" + " " + ("1" + " " + "2"));
    assert "(" + ("+" + " " + ("1" + " " + "2")) + ")" == "(+ 1 2)";
  }

  /** The printed form of a one-element sequence is that of its element. */
  lemma PrintLast(x: Object)
    requires IsPrintable(x)
    ensures ArePrintable([x]) && PrintAll([x]) == Print(x)
  {
    assert [x][1..] == [];
  }

  /** One step of building a printed sequence: a word, a space and the rest. */
  lemma PrintStep(x: Object, xs: seq<Object>, w: string, rest: string)
    requires IsPrintable(x) && ArePrintable(xs) && xs != []
    requires Print(x) == w && PrintAll(xs) == rest
    ensures ArePrintable([x] + xs) && PrintAll([x] + xs) == w + " " + rest
  {
    PrintAllCons(x, xs);
  }

  /** The printed form of a list: its elements' printed form in parentheses. */
  lemma PrintParens(xs: seq<Object>, inner: string)
    requires ArePrintable(xs) && PrintAll(xs) == inner
    ensures IsPrintable(List(xs)) && Print(List(xs)) == "(" + inner + ")"
  {
  }

  /** The source's parser tests: `(+ 1 2)` and `(+ 1 2 3 4)`. */
  lemma ParseExample()
    ensures ParseText("(+ 1 2)") == Ok(List([Object.Symbol("+"), Object.Integer(1), Object.Integer(2)]))
  {
    PrintExample();
    ParsePrinted([Object.Symbol("+"), Object.Integer(1), Object.Integer(2)]);
  }

  lemma ParseExampleLonger()
    ensures ParseText("(+ 1 2 3 4)") == Ok(List([Object.Symbol("+"), Object.Integer(1), Object.Integer(2), Object.Integer(3), Object.Integer(4)]))
  {
    PrintExampleLonger();
    ParsePrinted([Object.Symbol("+"), Object.Integer(1), Object.Integer(2), Object.Integer(3), Object.Integer(4)]);
  }

  lemma PrintExampleLonger()
    ensures IsPrintable(List([Object.Symbol("+"), Object.Integer(1), Object.Integer(2), Object.Integer(3), Object.Integer(4)]))
    ensures Print(List([Object.Symbol("+"), Object.Integer(1), Object.Integer(2), Object.Integer(3), Object.Integer(4)])) == "(+ 1 2 3 4)"
  {
    var plus, one, two, three, four := Object.Symbol("+"), Object.Integer(1), Object.Integer(2), Object.Integer(3), Object.Integer(4);
    PrintPlus();
    PrintDigit(1);
    PrintDigit(2);
    PrintDigit(3);
    PrintDigit(4);
    PrintLast(four);
    PrintStep(three, [four], "3", "4");
    assert [three] + [four] == [three, four];
    var s34 := "3" + " " + "4";
    PrintStep(two, [three, four], "2", s34);
    assert [two] + [three, four] == [two, three, four];
    var s234 := "2" + " " + s34;
    PrintStep(one, [two, three, four], "1", s234);
    assert [one] + [two, three, four] == [one, two, three, four];
    var s1234 := "1" + " " + s234;
    PrintStep(plus, [one, two, three, four], "+", s1234);
    assert [plus] + [one, two, three, four] == [plus, one, two, three, four];
    var all := "+" + " " + s1234;
    PrintParens([plus, one, two, three, four], all);
    assert s34 == "3 4";
    assert s234 == "2 3 4";
    assert s1234 == "1 2 3 4";
    assert "(" + all + ")" == "(+ 1 2 3 4)";
  }
}
