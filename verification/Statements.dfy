/**
 Operation statements: printed, and read back (`_parse_op` and what it calls; `node_to_text`, `_format_lhs`
 and `_format_arg_item` in bdc/hs/parse.py). A printer takes the tokens that follow, `tail`.
 */
module Statements {
  import opened Attributes
  import opened TypeClauses

  // ---- operands -------------------------------------------------------------------

  datatype Index = Whole | Part(i: int)

  /** `%base`, or one result of a group: `%base#i`. */
  datatype Ref = Ref(base: string, index: Index)

  function PrintRef(r: Ref, tail: seq<Token>): seq<Token> {
    [Val(r.base)] + match r.index case Whole => tail case Part(i) => [Punct('#'), Int(i)] + tail
  }

  function ParseRef(ts: seq<Token>): (r: Parsed<Ref>)
    ensures r.Done? ==> |r.rest| < |ts|
  {
    if ts == [] || !ts[0].Val? then Fail
    else if !Starts(ts[1..], Punct('#')) then Done(Ref(ts[0].name, Whole), ts[1..])
    else if |ts| > 2 && ts[2].Int? then Done(Ref(ts[0].name, Part(ts[2].value)), ts[3..])
    else Fail
  }

  lemma {:induction false} RefRoundTrip(r: Ref, tail: seq<Token>)
    requires !Starts(tail, Punct('#'))
    ensures ParseRef(PrintRef(r, tail)) == Done(r, tail)
  {
    var ts := PrintRef(r, tail);
    match r.index
    case Whole => assert ts[1..] == tail;
    case Part(i) => assert ts[1..][0] == Punct('#') && ts[2] == Int(i) && ts[3..] == tail;
  }

  /** Within a group: a value, perhaps with its type spelled out, or a bare token. */
  datatype Item = Operand(ref: Ref, suffix: seq<Token>) | Literal(token: Token)

  function PrintItem(x: Item, tail: seq<Token>): seq<Token> {
    match x
    case Operand(r, suffix) => PrintRef(r, if suffix == [] then tail else [Punct(':')] + (suffix + tail))
    case Literal(t) => [t] + tail
  }

  function PrintItems(xs: seq<Item>, tail: seq<Token>): seq<Token> {
    if xs == [] then tail
    else PrintItem(xs[0], if |xs| == 1 then tail else [Punct(',')] + PrintItems(xs[1..], tail))
  }

  function ParseItem(ts: seq<Token>): (r: Parsed<Item>)
    ensures r.Done? ==> |r.rest| < |ts|
  {
    if ts == [] then Fail
    else if ts[0].Int? || ts[0].Word? then Done(Literal(ts[0]), ts[1..])
    else
      var r := ParseRef(ts);
      if r.Fail? then Fail
      else if !Starts(r.rest, Punct(':')) then Done(Operand(r.value, []), r.rest)
      else
        var n := AtomLength(r.rest[1..]);
        if n.Bad? || n.n == 0 then Fail
        else Done(Operand(r.value, r.rest[1..][..n.n]), r.rest[1..][n.n..])
  }

  /** The rest of `[...]`. */
  function ParseSquare(ts: seq<Token>, acc: seq<Item>): (r: Parsed<seq<Item>>)
    ensures r.Done? ==> |r.rest| < |ts|
    decreases |ts|
  {
    if Starts(ts, Punct(']')) then Done(acc, ts[1..])
    else
      var x := ParseItem(ts);
      if x.Fail? then Fail
      else if Starts(x.rest, Punct(',')) then ParseSquare(x.rest[1..], acc + [x.value])
      else if Starts(x.rest, Punct(']')) then ParseSquare(x.rest, acc + [x.value])
      else Fail
  }

  /** The rest of `(...)`, which holds values only. */
  function ParseRound(ts: seq<Token>, acc: seq<Item>): (r: Parsed<seq<Item>>)
    ensures r.Done? ==> |r.rest| < |ts|
    decreases |ts|
  {
    if Starts(ts, Punct(')')) then Done(acc, ts[1..])
    else
      var x := ParseRef(ts);
      if x.Fail? then Fail
      else if Starts(x.rest, Punct(',')) then ParseRound(x.rest[1..], acc + [Operand(x.value, [])])
      else ParseRound(x.rest, acc + [Operand(x.value, [])])
  }

  ghost predicate GoodItem(x: Item) {
    match x
    case Operand(_, suffix) => suffix == [] || IsAtom(suffix)
    case Literal(t) => t.Int? || (t.Word? && IsIdent(t.text))
  }

  lemma {:induction false} ItemRoundTrip(x: Item, tail: seq<Token>)
    requires GoodItem(x) && tail != [] && tail[0] in {Punct(','), Punct(']')}
    ensures ParseItem(PrintItem(x, tail)) == Done(x, tail)
    ensures !Starts(PrintItem(x, tail), Punct(']'))
  {
    match x
    case Literal(t) => assert ([t] + tail)[1..] == tail;
    case Operand(r, suffix) =>
      if suffix == [] {
        RefRoundTrip(r, tail);
        hide AtomLength, IsAtom;
      } else {
        hide ParseItem, PrintItem, ParseRef, AtomLength, IsAtom;
        TypedItemReads(r, suffix, tail);
      }
  }

  /** A value with its type. */
  lemma {:induction false} TypedItemReads(r: Ref, suffix: seq<Token>, tail: seq<Token>)
    requires suffix != [] && IsAtom(suffix) && tail != [] && tail[0] in {Punct(','), Punct(']')}
    ensures ParseItem(PrintItem(Operand(r, suffix), tail)) == Done(Operand(r, suffix), tail)
    ensures !Starts(PrintItem(Operand(r, suffix), tail), Punct(']'))
  {
    var after := [Punct(':')] + (suffix + tail);
    AtomIff(suffix);
    AtomStands(suffix, tail);
    hide AtomLength, IsAtom;
    RefRoundTrip(r, after);
    RefStarts(r, after);
    hide ParseRef, PrintRef;
    assert after[1..] == suffix + tail;
    assert (suffix + tail)[..|suffix|] == suffix && (suffix + tail)[|suffix|..] == tail;
  }

  lemma {:induction false} SquareRoundTrip(xs: seq<Item>, acc: seq<Item>, tail: seq<Token>)
    requires forall x | x in xs :: GoodItem(x)
    ensures ParseSquare(PrintItems(xs, [Punct(']')] + tail), acc) == Done(acc + xs, tail)
    decreases |xs|
  {
    hide ParseItem, PrintItem, GoodItem;
    var close := [Punct(']')] + tail;
    if xs == [] {
      assert close[1..] == tail && acc + xs == acc;
    } else {
      assert xs[0] in xs;
      var after := if |xs| == 1 then close else [Punct(',')] + PrintItems(xs[1..], close);
      ItemRoundTrip(xs[0], after);
      SquareRoundTrip(xs[1..], acc + [xs[0]], tail);
      assert acc + [xs[0]] + xs[1..] == acc + xs;
      if |xs| == 1 {
        assert PrintItems(xs[1..], close) == close;
      } else {
        assert after[1..] == PrintItems(xs[1..], close);
      }
    }
  }

  ghost predicate AllValues(xs: seq<Item>) {
    forall x | x in xs :: x.Operand? && x.suffix == []
  }

  lemma {:induction false} RoundRoundTrip(xs: seq<Item>, acc: seq<Item>, tail: seq<Token>)
    requires AllValues(xs)
    ensures ParseRound(PrintItems(xs, [Punct(')')] + tail), acc) == Done(acc + xs, tail)
    decreases |xs|
  {
    hide ParseRef, PrintRef;
    var close := [Punct(')')] + tail;
    if xs == [] {
      assert close[1..] == tail && acc + xs == acc;
    } else {
      assert xs[0] in xs;
      var after := if |xs| == 1 then close else [Punct(',')] + PrintItems(xs[1..], close);
      RefRoundTrip(xs[0].ref, after);
      assert !Starts(PrintRef(xs[0].ref, after), Punct(')')) by {
        RefStarts(xs[0].ref, after);
      }
      RoundRoundTrip(xs[1..], acc + [xs[0]], tail);
      assert acc + [xs[0]] + xs[1..] == acc + xs;
      if |xs| == 1 {
        assert PrintItems(xs[1..], close) == close;
      } else {
        assert after[1..] == PrintItems(xs[1..], close);
      }
    }
  }

  lemma {:induction false} RefStarts(r: Ref, tail: seq<Token>)
    ensures PrintRef(r, tail) != [] && PrintRef(r, tail)[0] == Val(r.base)
  {
  }

  // ---- operand segments -------------------------------------------------------------

  datatype Wrap = Bare | Square | Round

  /** A run of operands, or a `key = value` among them; `comma` says one follows. */
  datatype Arg = Segment(wrap: Wrap, items: seq<Item>, comma: bool) | Inline(key: string, value: Attr, comma: bool)

  function CommaTail(comma: bool, tail: seq<Token>): seq<Token> {
    if comma then [Punct(',')] + tail else tail
  }

  function PrintArg(a: Arg, tail: seq<Token>): seq<Token> {
    var after := CommaTail(a.comma, tail);
    match a
    case Inline(key, value, _) => [Word(key), Punct('=')] + (AttrTokens(value) + after)
    case Segment(Bare, items, _) => PrintItems(items, after)
    case Segment(Square, items, _) => [Punct('[')] + PrintItems(items, [Punct(']')] + after)
    case Segment(Round, items, _) => [Punct('(')] + PrintItems(items, [Punct(')')] + after)
  }

  function PrintArgs(args: seq<Arg>, tail: seq<Token>): seq<Token> {
    if args == [] then tail else PrintArg(args[0], PrintArgs(args[1..], tail))
  }

  /** What has been read of an operation: its operands, its attributes, and where the dictionary was. */
  datatype Body = Body(args: seq<Arg>, attrs: Dict, seen: bool, first: bool)

  /** `attrs.update(more)`. */
  function Update(attrs: Dict, more: Dict): Dict
    decreases |more|
  {
    if more == [] then attrs else Update(Assign(attrs, more[0].key, more[0].value), more[1..])
  }

  /** One entry after another, the last one last. */
  lemma {:induction false} UpdateIs(attrs: Dict, more: Dict, e: Entry)
    ensures Update(attrs, []) == attrs
    ensures Update(attrs, more + [e]) == Assign(Update(attrs, more), e.key, e.value)
    decreases |more|
  {
    if more == [] {
      assert ([] + [e])[1..] == [] && ([] + [e])[0] == e;
    } else {
      UpdateIs(Assign(attrs, more[0].key, more[0].value), more[1..], e);
      assert (more + [e])[1..] == more[1..] + [e];
    }
  }

  /** An optional comma: whether it is there, and what follows. */
  function EatComma(ts: seq<Token>): (r: (bool, seq<Token>))
    ensures |r.1| <= |ts|
  {
    if Starts(ts, Punct(',')) then (true, ts[1..]) else (false, ts)
  }

  function Push(b: Body, wrap: Wrap, items: seq<Item>, comma: bool): Body {
    b.(args := b.args + [Segment(wrap, items, comma)])
  }

  /** Everything up to the type clause or the end of the block. */
  function ParseArgs(ts: seq<Token>, b: Body): (r: Parsed<Body>)
    ensures r.Done? ==> |r.rest| <= |ts|
    decreases |ts|
  {
    if ts == [] || ts[0] in {Punct('}'), Punct(':')} then Done(b, ts)
    else if ts[0] == Punct('{') then
      var d := ParseDict(ts);
      if b.seen || d.Fail? then Fail
      else ParseArgs(d.rest, b.(attrs := Update(b.attrs, d.value), seen := true, first := b.first || b.args == []))
    else if ts[0].Word? && Starts(ts[1..], Punct('=')) then
      var v := ParseAttr(ts[2..], false);
      if v.Fail? then Fail
      else
        var (comma, rest) := EatComma(v.rest);
        ParseArgs(rest, b.(args := b.args
          + [Inline(ts[0].text, v.value, comma)], attrs := Assign(b.attrs, ts[0].text, v.value)))
    else if ts[0].Val? then
      var r := ParseRef(ts);
      if r.Fail? then Fail
      else
        var (comma, rest) := EatComma(r.rest);
        ParseArgs(rest, Push(b, Bare, [Operand(r.value, [])], comma))
    else if ts[0] == Punct('[') then
      var r := ParseSquare(ts[1..], []);
      if r.Fail? then Fail
      else
        var (comma, rest) := EatComma(r.rest);
        ParseArgs(rest, Push(b, Square, r.value, comma))
    else if ts[0] == Punct('(') then
      var r := ParseRound(ts[1..], []);
      if r.Fail? then Fail
      else
        var (comma, rest) := EatComma(r.rest);
        ParseArgs(rest, Push(b, Round, r.value, comma))
    else if ts[0].Sym? || ts[0].Word? then
      var (comma, rest) := EatComma(ts[1..]);
      ParseArgs(rest, Push(b, Bare, [Literal(ts[0])], comma))
    else Fail
  }

  /** The `key = value` operands, which are attributes too. */
  function Inlines(args: seq<Arg>): Dict {
    if args == [] then []
    else (if args[0].Inline? then [Entry(args[0].key, args[0].value)] else []) + Inlines(args[1..])
  }

  ghost predicate GoodArg(a: Arg) {
    match a
    case Inline(key, value, comma) =>
      IsIdent(key) && GoodAttr(value) && !value.TypedVal? && (value.OpaqueVal? && |value.raw| == 1 ==> comma)
    case Segment(Bare, items, _) => |items| == 1 && GoodBare(items[0])
    case Segment(Square, items, _) => forall x | x in items :: GoodItem(x)
    case Segment(Round, items, _) => AllValues(items)
  }

  /** An operand on its own: a value, or a word or symbol. */
  ghost predicate GoodBare(x: Item) {
    match x
    case Operand(_, suffix) => suffix == []
    case Literal(t) => t.Sym? || (t.Word? && IsIdent(t.text))
  }

  /** How whatever follows an operand begins. */
  predicate ArgTail(ts: seq<Token>) {
    ts != [] && (ts[0].Val? || ts[0].Word? || ts[0].Sym?
      || ts[0] in {Punct('['), Punct('('), Punct('{'), Punct(':'), Punct('}')})
  }

  /** `b` with one more operand. */
  function With(b: Body, a: Arg): Body {
    b.(args := b.args + [a], attrs := if a.Inline? then Assign(b.attrs, a.key, a.value) else b.attrs)
  }

  lemma {:induction false} CommaEaten(comma: bool, tail: seq<Token>)
    requires ArgTail(tail)
    ensures EatComma(CommaTail(comma, tail)) == (comma, tail)
    ensures CommaTail(comma, tail) != [] && CommaTail(comma, tail)[0] !in {Punct('#'), Punct('=')}
  {
    assert comma ==> CommaTail(comma, tail)[1..] == tail;
  }

  lemma {:induction false} ArgBegins(a: Arg, tail: seq<Token>)
    requires GoodArg(a)
    ensures ArgTail(PrintArg(a, tail))
  {
    if a.Segment? && a.wrap == Bare {
      assert PrintItems(a.items, CommaTail(a.comma, tail)) == PrintItem(a.items[0], CommaTail(a.comma, tail));
    }
  }

  lemma {:induction false} InlineReads(a: Arg, tail: seq<Token>, b: Body)
    requires GoodArg(a) && a.Inline? && ArgTail(tail)
    ensures ParseArgs(PrintArg(a, tail), b) == ParseArgs(tail, With(b, a))
  {
    var after := CommaTail(a.comma, tail);
    var ts := PrintArg(a, tail);
    CommaEaten(a.comma, tail);
    assert ts[0] == Word(a.key) && ts[1..][0] == Punct('=') && ts[2..] == AttrTokens(a.value) + after;
    AttrRoundTrip(a.value, false, after);
    hide ParseAttr, AttrTokens, EatComma, CommaTail, GoodAttr, ParseSquare, ParseRound, ParseRef, ParseDict;
  }

  /** A value on its own. */
  lemma {:induction false} RefReads(ts: seq<Token>, r: Ref, after: seq<Token>, comma: bool, tail: seq<Token>, b: Body)
    requires ts != [] && ts[0].Val? && ParseRef(ts) == Done(r, after) && EatComma(after) == (comma, tail)
    ensures ParseArgs(ts, b) == ParseArgs(tail, Push(b, Bare, [Operand(r, [])], comma))
  {
    hide ParseRef, EatComma, ParseSquare, ParseRound, ParseDict, ParseAttr;
  }

  /** A word or symbol on its own. */
  lemma {:induction false} NameReads(ts: seq<Token>, after: seq<Token>, comma: bool, tail: seq<Token>, b: Body)
    requires ts != [] && (ts[0].Sym? || ts[0].Word?) && ts[1..] == after && !Starts(after, Punct('='))
    requires EatComma(after) == (comma, tail)
    ensures ParseArgs(ts, b) == ParseArgs(tail, Push(b, Bare, [Literal(ts[0])], comma))
  {
    hide ParseRef, EatComma, ParseSquare, ParseRound, ParseDict, ParseAttr;
  }

  lemma {:induction false} BareReads(a: Arg, tail: seq<Token>, b: Body)
    requires GoodArg(a) && a.Segment? && a.wrap == Bare && ArgTail(tail)
    ensures ParseArgs(PrintArg(a, tail), b) == ParseArgs(tail, With(b, a))
  {
    hide ParseArgs;
    var after := CommaTail(a.comma, tail);
    CommaEaten(a.comma, tail);
    assert a.items == [a.items[0]];
    var ts := PrintItem(a.items[0], after);
    assert PrintArg(a, tail) == ts;
    hide EatComma, CommaTail, ArgTail;
    match a.items[0]
    case Operand(r, suffix) =>
      RefRoundTrip(r, after);
      RefStarts(r, after);
      hide ParseRef, PrintRef;
      RefReads(ts, r, after, a.comma, tail, b);
    case Literal(t) =>
      assert ts[1..] == after;
      NameReads(ts, after, a.comma, tail, b);
  }

  lemma {:induction false} GroupReads(a: Arg, tail: seq<Token>, b: Body)
    requires GoodArg(a) && a.Segment? && a.wrap != Bare && ArgTail(tail)
    ensures ParseArgs(PrintArg(a, tail), b) == ParseArgs(tail, With(b, a))
  {
    var after := CommaTail(a.comma, tail);
    var ts := PrintArg(a, tail);
    CommaEaten(a.comma, tail);
    assert [] + a.items == a.items;
    if a.wrap == Square {
      assert ts[0] == Punct('[') && ts[1..] == PrintItems(a.items, [Punct(']')] + after);
      hide PrintItems, ParseSquare, PrintArg, ParseArgs;
      SquareRoundTrip(a.items, [], after);
      GroupStep(ts, a, after, tail, b);
    } else {
      assert ts[0] == Punct('(') && ts[1..] == PrintItems(a.items, [Punct(')')] + after);
      hide PrintItems, ParseRound, PrintArg, ParseArgs;
      RoundRoundTrip(a.items, [], after);
      GroupStep(ts, a, after, tail, b);
    }
  }

  /** A bracketed segment, read from its opening bracket on. */
  lemma {:induction false} GroupStep(ts: seq<Token>, a: Arg, after: seq<Token>, tail: seq<Token>, b: Body)
    requires a.Segment? && ts != [] && EatComma(after) == (a.comma, tail)
    requires a.wrap == Square ==> ts[0] == Punct('[') && ParseSquare(ts[1..], []) == Done(a.items, after)
    requires a.wrap == Round ==> ts[0] == Punct('(') && ParseRound(ts[1..], []) == Done(a.items, after)
    requires a.wrap != Bare
    ensures ParseArgs(ts, b) == ParseArgs(tail, With(b, a))
  {
    hide ParseRef, EatComma, ParseSquare, ParseRound, ParseDict, ParseAttr;
  }

  /** One operand segment is read back, comma and all. */
  lemma {:induction false} ArgReads(a: Arg, tail: seq<Token>, b: Body)
    requires GoodArg(a) && ArgTail(tail)
    ensures ParseArgs(PrintArg(a, tail), b) == ParseArgs(tail, With(b, a))
  {
    if a.Inline? {
      InlineReads(a, tail, b);
    } else if a.wrap == Bare {
      BareReads(a, tail, b);
    } else {
      GroupReads(a, tail, b);
    }
  }

  lemma {:induction false} ArgsBegin(args: seq<Arg>, tail: seq<Token>)
    requires (forall a | a in args :: GoodArg(a)) && ArgTail(tail)
    ensures ArgTail(PrintArgs(args, tail))
  {
    if args != [] {
      assert args[0] in args;
      ArgBegins(args[0], PrintArgs(args[1..], tail));
    }
  }

  /** `b` with more operands, and their attributes. */
  function WithAll(b: Body, args: seq<Arg>): Body {
    b.(args := b.args + args, attrs := b.attrs + Inlines(args))
  }

  lemma {:induction false} WithNone(b: Body)
    ensures WithAll(b, []) == b
  {
    assert b.args + [] == b.args && b.attrs + [] == b.attrs;
  }

  lemma {:induction false} AttrsOne(attrs: Dict, args: seq<Arg>)
    requires args != [] && DistinctKeys(attrs + Inlines(args))
    ensures (if args[0].Inline? then Assign(attrs, args[0].key, args[0].value) else attrs) + Inlines(args[1..]) ==
               attrs + Inlines(args)
  {
    var a, more := args[0], Inlines(args[1..]);
    if a.Inline? {
      assert Inlines(args) == [Entry(a.key, a.value)] + more;
      NewKey(attrs, Inlines(args));
      AssignNew(attrs, a.key, a.value);
      hide Inlines, Assign, DistinctKeys;
      assert attrs + [Entry(a.key, a.value)] + more == attrs + ([Entry(a.key, a.value)] + more);
    } else {
      assert Inlines(args) == [] + more == more;
    }
  }

  lemma {:induction false} WithOne(b: Body, args: seq<Arg>)
    requires args != [] && DistinctKeys(b.attrs + Inlines(args))
    ensures WithAll(With(b, args[0]), args[1..]) == WithAll(b, args)
    ensures DistinctKeys(With(b, args[0]).attrs + Inlines(args[1..]))
  {
    AttrsOne(b.attrs, args);
    hide Inlines, Assign, DistinctKeys;
    assert args == [args[0]] + args[1..];
    assert b.args + [args[0]] + args[1..] == b.args + args;
  }

  /** All operand segments are read back, in order. */
  lemma {:induction false} ArgsRoundTrip(args: seq<Arg>, tail: seq<Token>, b: Body)
    requires (forall a | a in args :: GoodArg(a)) && ArgTail(tail) && DistinctKeys(b.attrs + Inlines(args))
    ensures ParseArgs(PrintArgs(args, tail), b) == ParseArgs(tail, WithAll(b, args))
    decreases |args|
  {
    hide ParseArgs, PrintArg, GoodArg, ArgTail, DistinctKeys, With, WithAll, Inlines;
    if args == [] {
      WithNone(b);
    } else {
      assert args[0] in args;
      assert forall a | a in args[1..] :: a in args;
      ArgsBegin(args[1..], tail);
      ArgReads(args[0], PrintArgs(args[1..], tail), b);
      WithOne(b, args);
      ArgsRoundTrip(args[1..], tail, With(b, args[0]));
    }
  }

  lemma {:induction false} UpdateNew(attrs: Dict, more: Dict)
    requires DistinctKeys(attrs + more)
    ensures Update(attrs, more) == attrs + more
    decreases |more|
  {
    if more == [] {
      assert attrs + more == attrs;
    } else {
      NewKey(attrs, more);
      AssignNew(attrs, more[0].key, more[0].value);
      assert attrs + [Entry(more[0].key, more[0].value)] + more[1..] == attrs + more;
      UpdateNew(attrs + [more[0]], more[1..]);
    }
  }

  // ---- result groups ----------------------------------------------------------------

  /** One binding left of `=`: a result, or a group `%base:k`. */
  datatype Binding = One(ref: Ref) | Many(base: string, k: nat)

  /** How many of `results`, from the first on, are `base#k`, `base#(k+1)`, and so on. */
  function RunLength(results: seq<Ref>, base: string, k: nat): (n: nat)
    ensures n <= |results| && forall i | 0 <= i < n :: results[i] == Ref(base, Part(k + i))
  {
    if results == [] || results[0] != Ref(base, Part(k)) then 0
    else
      var n := RunLength(results[1..], base, k + 1);
      assert forall i | 0 < i < n + 1 :: results[i] == results[1..][i - 1];
      n + 1
  }

  /** The printer's grouping: a run `x#0, x#1, ...` of two or more becomes one group. */
  function Grouped(results: seq<Ref>): seq<Binding> {
    if results == [] then []
    else
      var n := RunLength(results, results[0].base, 0);
      if n >= 2 then [Many(results[0].base, n)] + Grouped(results[n..])
      else [One(results[0])] + Grouped(results[1..])
  }

  /** The same, run by run along the list. */
  method FormatLhs(results: seq<Ref>) returns (parts: seq<Binding>)
    ensures parts == Grouped(results)
  {
    hide RunLength, Grouped;
    parts := [];
    var i := 0;
    GroupedNone();
    while i < |results|
      invariant i <= |results|
      invariant Grouped(results) == parts + Grouped(results[i..])
    {
      var base := results[i].base;
      var k := CountRun(results, i, base);
      var part := if k >= 2 then Many(base, k) else One(results[i]);
      ghost var next := results[i + if k >= 2 then k else 1..];
      GroupedFirst(results[i..], part, next);
      parts, i := MoreParts(parts, part, Grouped(next)), i + if k >= 2 then k else 1;
    }
    assert results[i..] == [] && parts + [] == parts;
  }

  function MoreParts(parts: seq<Binding>, part: Binding, ghost rest: seq<Binding>): (r: seq<Binding>)
    ensures r + rest == parts + ([part] + rest)
  {
    parts + [part]
  }

  lemma {:induction false} GroupedNone()
    ensures Grouped([]) == []
  {
  }

  lemma {:induction false} GroupedFirst(results: seq<Ref>, part: Binding, next: seq<Ref>)
    requires results != []
    requires var n := RunLength(results, results[0].base, 0);
             if n >= 2 then part == Many(results[0].base, n) && next == results[n..]
             else part == One(results[0]) && next == results[1..]
    ensures Grouped(results) == [part] + Grouped(next)
  {
    hide RunLength;
  }

  /** How long a group starting at `i` can be. */
  method CountRun(results: seq<Ref>, i: nat, base: string) returns (k: nat)
    requires i <= |results|
    ensures i + k <= |results| && k == RunLength(results[i..], base, 0)
  {
    k := 0;
    while i + k < |results| && results[i + k] == Ref(base, Part(k))
      invariant i + k <= |results|
      invariant RunLength(results[i..], base, 0) == k + RunLength(results[i + k..], base, k)
    {
      assert results[i + k..][1..] == results[i + k + 1..];
      k := k + 1;
    }
  }

  function PrintBinding(b: Binding, tail: seq<Token>): seq<Token> {
    match b
    case One(r) => PrintRef(r, tail)
    case Many(base, k) => [Val(base), Punct(':'), Int(k)] + tail
  }

  function PrintBindings(bs: seq<Binding>, tail: seq<Token>): seq<Token> {
    if bs == [] then tail
    else PrintBinding(bs[0], if |bs| == 1 then [Punct('=')] + tail else [Punct(',')] + PrintBindings(bs[1..], tail))
  }

  /** The left-hand side: nothing at all for an operation without results. */
  function PrintLhs(results: seq<Ref>, tail: seq<Token>): seq<Token> {
    PrintBindings(Grouped(results), tail)
  }

  function Group(base: string, k: nat): (r: seq<Ref>)
    ensures |r| == k
  {
    if k == 0 then [] else Group(base, k - 1) + [Ref(base, Part(k - 1))]
  }

  function ParseBinding(ts: seq<Token>): (r: Parsed<seq<Ref>>)
    ensures r.Done? ==> |r.rest| < |ts|
  {
    if ts == [] || !ts[0].Val? then Fail
    else if !Starts(ts[1..], Punct(':')) then Done([Ref(ts[0].name, Whole)], ts[1..])
    else if |ts| > 2 && ts[2].Int? then Done(Group(ts[0].name, if ts[2].value < 0 then 0 else ts[2].value), ts[3..])
    else Fail
  }

  function ParseLhs(ts: seq<Token>, acc: seq<Ref>): (r: Parsed<seq<Ref>>)
    ensures r.Done? ==> |r.rest| < |ts|
    decreases |ts|
  {
    var b := ParseBinding(ts);
    if b.Fail? then Fail
    else if Starts(b.rest, Punct(',')) then ParseLhs(b.rest[1..], acc + b.value)
    else if Starts(b.rest, Punct('=')) then Done(acc + b.value, b.rest[1..])
    else Fail
  }

  /** The results a binding stands for. */
  function Bound(b: Binding): seq<Ref> {
    match b
    case One(r) => [r]
    case Many(base, k) => Group(base, k)
  }

  function Expand(bs: seq<Binding>): seq<Ref> {
    if bs == [] then [] else Bound(bs[0]) + Expand(bs[1..])
  }

  lemma {:induction false} GroupAt(base: string, k: nat)
    ensures forall i | 0 <= i < k :: Group(base, k)[i] == Ref(base, Part(i))
  {
    if k > 0 {
      GroupAt(base, k - 1);
    }
  }

  /** A run is a group. */
  lemma {:induction false} RunIsGroup(results: seq<Ref>, base: string)
    ensures var n := RunLength(results, base, 0); results[..n] == Group(base, n)
  {
    var n := RunLength(results, base, 0);
    GroupAt(base, n);
    hide Group;
    forall i | 0 <= i < n ensures results[..n][i] == Group(base, n)[i] {
    }
  }

  /** Grouping loses nothing. */
  lemma {:induction false} ExpandGrouped(results: seq<Ref>)
    ensures Expand(Grouped(results)) == results
    decreases |results|
  {
    hide RunLength, Group, Expand;
    if results == [] {
      assert Expand([]) == [] by {
        ExpandNone();
      }
    } else {
      var base := results[0].base;
      var n := RunLength(results, base, 0);
      if n >= 2 {
        ExpandGrouped(results[n..]);
        RunIsGroup(results, base);
        ExpandFirst(Many(base, n), Grouped(results[n..]));
        assert results == results[..n] + results[n..];
      } else {
        ExpandGrouped(results[1..]);
        ExpandFirst(One(results[0]), Grouped(results[1..]));
        assert results == [results[0]] + results[1..];
      }
    }
  }

  lemma {:induction false} ExpandNone()
    ensures Expand([]) == []
  {
  }

  lemma {:induction false} ExpandFirst(b: Binding, bs: seq<Binding>)
    ensures Expand([b] + bs) == Bound(b) + Expand(bs)
  {
    assert ([b] + bs)[1..] == bs;
  }

  /** Whole results, and groups of two or more. */
  ghost predicate Proper(bs: seq<Binding>) {
    forall b | b in bs :: match b case One(r) => r.index == Whole case Many(_, k) => k >= 2
  }

  /** A run begins anew after a group. */
  lemma {:induction false} RunOfGroup(base: string, k: nat, j: nat, results: seq<Ref>, rest: seq<Ref>)
    requires j <= k && results == Group(base, k)[j..] + rest
    requires rest != [] ==> rest[0] != Ref(base, Part(k))
    ensures RunLength(results, base, j) == k - j
    decreases k - j
  {
    GroupAt(base, k);
    hide Group;
    if j < k {
      assert results[0] == Group(base, k)[j] == Ref(base, Part(j));
      assert results[1..] == Group(base, k)[j + 1..] + rest;
      RunOfGroup(base, k, j + 1, results[1..], rest);
    } else {
      assert results == rest;
    }
  }

  lemma {:induction false} ExpandBegins(bs: seq<Binding>)
    requires Proper(bs)
    ensures Expand(bs) != [] ==> Expand(bs)[0].index in {Whole, Part(0)}
  {
    if bs != [] {
      assert bs[0] in bs;
      if bs[0].Many? {
        GroupAt(bs[0].base, bs[0].k);
      }
      hide Group;
      assert Expand(bs)[0] == Bound(bs[0])[0];
    }
  }

  /** Such results are grouped as they were bound. */
  lemma {:induction false} GroupedExpand(bs: seq<Binding>)
    requires Proper(bs)
    ensures Grouped(Expand(bs)) == bs
  {
    if bs == [] {
      ExpandNone();
      GroupedNone();
    } else {
      var b, more := bs[0], bs[1..];
      assert b in bs && bs == [b] + more;
      assert Proper(more) by {
        assert forall c | c in more :: c in bs;
      }
      GroupedExpand(more);
      ExpandFirst(b, more);
      ExpandBegins(more);
      hide Proper, Expand, Grouped;
      GroupedBinding(b, Expand(more));
    }
  }

  lemma {:induction false} GroupedBinding(b: Binding, rest: seq<Ref>)
    requires match b case One(r) => r.index == Whole case Many(_, k) => k >= 2
    requires rest != [] ==> rest[0].index in {Whole, Part(0)}
    ensures Grouped(Bound(b) + rest) == [b] + Grouped(rest)
  {
    var results := Bound(b) + rest;
    match b
    case One(r) =>
      assert RunLength(results, r.base, 0) == 0;
      assert results[1..] == rest;
      GroupedFirst(results, b, rest);
    case Many(base, k) =>
      assert Group(base, k)[0..] == Group(base, k);
      RunOfGroup(base, k, 0, results, rest);
      GroupAt(base, k);
      hide Group;
      assert results[0] == Ref(base, Part(0)) && results[k..] == rest;
      GroupedFirst(results, b, rest);
  }

  /** Results survive exactly if they are whole ones and groups of two or more. */
  lemma {:induction false} GoodResultsIff(results: seq<Ref>)
    ensures GoodResults(results) <==> exists bs :: Proper(bs) && results == Expand(bs)
  {
    if GoodResults(results) {
      ExpandGrouped(results);
      GroupedProper(results);
      assert Proper(Grouped(results));
    }
    if bs :| Proper(bs) && results == Expand(bs) {
      GroupedExpand(bs);
    }
  }

  lemma {:induction false} GroupedProper(results: seq<Ref>)
    ensures forall b | b in Grouped(results) :: b.Many? ==> b.k >= 2
    decreases |results|
  {
    if results != [] {
      var n := RunLength(results, results[0].base, 0);
      GroupedProper(results[if n >= 2 then n else 1..]);
      hide RunLength;
    }
  }

  /** No result is left over from a group of one. */
  ghost predicate Bindable(bs: seq<Binding>) {
    forall b | b in bs :: b.One? ==> b.ref.index == Whole
  }

  ghost predicate GoodResults(results: seq<Ref>) {
    Bindable(Grouped(results))
  }

  lemma {:induction false} BindingReads(b: Binding, tail: seq<Token>)
    requires tail != [] && tail[0] in {Punct(','), Punct('=')} && (b.One? ==> b.ref.index == Whole)
    ensures ParseBinding(PrintBinding(b, tail)) == Done(Bound(b), tail)
  {
    var ts := PrintBinding(b, tail);
    match b
    case One(r) => assert ts[1..] == tail;
    case Many(base, k) => assert ts[1..][0] == Punct(':') && ts[2] == Int(k) && ts[3..] == tail;
  }

  /** A result of a group cannot be bound on its own. */
  lemma {:induction false} PartFails(b: Binding, tail: seq<Token>, acc: seq<Ref>)
    requires b.One? && b.ref.index != Whole
    ensures ParseLhs(PrintBinding(b, tail), acc).Fail?
  {
    var ts := PrintBinding(b, tail);
    assert ts[1..][0] == Punct('#');
  }

  /** A binding, and what follows it. */
  lemma {:induction false} BindingStep(b: Binding, more: bool, rest: seq<Token>, acc: seq<Ref>)
    requires b.One? ==> b.ref.index == Whole
    ensures var after := [Punct(if more then ',' else '=')] + rest;
            ParseLhs(PrintBinding(b, after), acc) ==
              if more then ParseLhs(rest, acc + Bound(b)) else Done(acc + Bound(b), rest)
  {
    var after := [Punct(if more then ',' else '=')] + rest;
    BindingReads(b, after);
    assert after[1..] == rest;
    hide ParseBinding, PrintBinding, Bound;
  }

  /** Bindings read back exactly when none of them is left over from a group of one. */
  lemma {:induction false} BindingsReadIff(bs: seq<Binding>, acc: seq<Ref>, tail: seq<Token>)
    requires bs != []
    ensures Bindable(bs) ==> ParseLhs(PrintBindings(bs, tail), acc) == Done(acc + Expand(bs), tail)
    ensures !Bindable(bs) ==> ParseLhs(PrintBindings(bs, tail), acc).Fail?
    decreases |bs|
  {
    hide Bound, ParseLhs, PrintBinding;
    var b, more := bs[0], bs[1..];
    assert b in bs;
    if b.One? && b.ref.index != Whole {
      PartFails(b, if |bs| == 1 then [Punct('=')] + tail else [Punct(',')] + PrintBindings(more, tail), acc);
    } else if |bs| == 1 {
      BindingStep(b, false, tail, acc);
      assert Expand(bs) == Bound(b) + Expand([]) == Bound(b);
    } else {
      BindingStep(b, true, PrintBindings(more, tail), acc);
      BindableSplit(bs);
      BindingsReadIff(more, acc + Bound(b), tail);
      hide PrintBindings, Expand, Bindable;
      assert acc + Bound(b) + Expand(more) == acc + (Bound(b) + Expand(more));
      ExpandOne(bs);
    }
  }

  lemma {:induction false} ExpandOne(bs: seq<Binding>)
    requires bs != []
    ensures Expand(bs) == Bound(bs[0]) + Expand(bs[1..])
  {
  }

  lemma {:induction false} BindableSplit(bs: seq<Binding>)
    requires bs != [] && (bs[0].One? ==> bs[0].ref.index == Whole)
    ensures Bindable(bs) <==> Bindable(bs[1..])
  {
    assert forall b :: b in bs <==> b == bs[0] || b in bs[1..];
  }

  /** Results read back exactly when every group among them has two members or more. */
  lemma {:induction false} LhsRoundTripIff(results: seq<Ref>, tail: seq<Token>)
    requires results != []
    ensures ParseLhs(PrintLhs(results, tail), []) == Done(results, tail) <==> GoodResults(results)
    ensures GoodResults(results) <==> exists bs :: Proper(bs) && results == Expand(bs)
  {
    GoodResultsIff(results);
    hide Proper, Expand;
    ExpandGrouped(results);
    BindingsReadIff(Grouped(results), [], tail);
    assert [] + results == results;
  }

  // ---- statements -------------------------------------------------------------------

  /** An operation: `first` says its attribute dictionary comes before its operands. */
  datatype Stmt = Stmt(op: string, args: seq<Arg>, results: seq<Ref>, attrs: Dict, first: bool, typeSig: seq<Token>)

  /** The attributes that no `key = value` operand spells. */
  function Braced(attrs: Dict, inline: Dict): Dict {
    if attrs == [] then []
    else (if HasKey(inline, attrs[0].key) then [] else [attrs[0]]) + Braced(attrs[1..], inline)
  }

  predicate HasKey(entries: Dict, key: string) {
    exists i :: 0 <= i < |entries| && entries[i].key == key
  }

  /** What is braced: the attributes without an operand that spells them, in order. */
  lemma {:induction false} BracedIs(attrs: Dict, e: Entry, inline: Dict)
    ensures Braced([], inline) == []
    ensures Braced(attrs + [e], inline) ==
              Braced(attrs, inline) + if exists i :: 0 <= i < |inline| && inline[i].key == e.key then [] else [e]
  {
    if attrs == [] {
      assert ([] + [e])[1..] == [] && ([] + [e])[0] == e;
    } else {
      BracedIs(attrs[1..], e, inline);
      assert (attrs + [e])[1..] == attrs[1..] + [e];
    }
  }

  /** What is spelled inline: the `key = value` operands, in order. */
  lemma {:induction false} InlinesAre(args: seq<Arg>, wrap: Wrap, items: seq<Item>, comma: bool, key: string, v: Attr)
    ensures Inlines([]) == []
    ensures Inlines(args + [Segment(wrap, items, comma)]) == Inlines(args)
    ensures Inlines(args + [Inline(key, v, comma)]) == Inlines(args) + [Entry(key, v)]
  {
    if args == [] {
      assert Inlines([Segment(wrap, items, comma)][1..]) == [] && Inlines([Inline(key, v, comma)][1..]) == [];
    } else {
      InlinesAre(args[1..], wrap, items, comma, key, v);
      assert (args + [Segment(wrap, items, comma)])[1..] == args[1..] + [Segment(wrap, items, comma)];
      assert (args + [Inline(key, v, comma)])[1..] == args[1..] + [Inline(key, v, comma)];
    }
  }

  function PrintStmt(s: Stmt, tail: seq<Token>): seq<Token> {
    PrintLhs(s.results, [Word(s.op)]
      + PrintBody(s.args, Braced(s.attrs, Inlines(s.args)), s.first, PrintClause(s.typeSig, tail)))
  }

  function PrintClause(typeSig: seq<Token>, tail: seq<Token>): seq<Token> {
    if typeSig == [] then tail else [Punct(':')] + (typeSig + tail)
  }

  function PrintBody(args: seq<Arg>, braced: Dict, first: bool, tail: seq<Token>): seq<Token> {
    if braced == [] then PrintArgs(args, tail)
    else if first then DictTokens(braced) + PrintArgs(args, tail)
    else PrintArgs(args, DictTokens(braced) + tail)
  }

  const PREFIX := "handshake."

  /** The mnemonic without the dialect's name. */
  function Stripped(op: string): string {
    if |op| >= |PREFIX| && op[..|PREFIX|] == PREFIX then op[|PREFIX|..] else op
  }

  function ParseStmt(ts: seq<Token>): (r: Parsed<Stmt>)
    ensures r.Done? ==> |r.rest| < |ts|
  {
    if ts == [] then Fail
    else
      var lhs := if ts[0].Val? then ParseLhs(ts, []) else Done([], ts);
      if lhs.Fail? || lhs.rest == [] || !lhs.rest[0].Word? then Fail
      else
        var op := Stripped(lhs.rest[0].text);
        var body := ParseArgs(lhs.rest[1..], Body([], [], false, false));
        if body.Fail? then Fail
        else
          var clause := ParseClause(body.rest);
          if clause.Fail? then Fail
          else Done(Stmt(op, body.value.args, lhs.value, body.value.attrs, body.value.first, clause.value), clause.rest)
  }

  function ParseClause(ts: seq<Token>): (r: Parsed<seq<Token>>)
    ensures r.Done? ==> |r.rest| <= |ts|
  {
    if !Starts(ts, Punct(':')) then Done([], ts)
    else
      var n := ClauseLength(ts[1..]);
      if n.Bad? then Fail else Done(ts[1..][..n.n], ts[1..][n.n..])
  }

  /** What survives: `last` allows a statement without a type clause. */
  ghost predicate GoodStmt(s: Stmt, last: bool) {
    var inline := Inlines(s.args);
    var braced := Braced(s.attrs, inline);
    && IsIdent(s.op) && Stripped(s.op) == s.op && s.op !in {"to", "_"}
    && (forall a | a in s.args :: GoodArg(a))
    && GoodResults(s.results)
    && GoodDict(braced) && DistinctKeys(s.attrs)
    && s.attrs == (if s.first then braced + inline else inline + braced)
    && (braced == [] ==> !s.first) && (s.args == [] && braced != [] ==> s.first)
    && (if s.typeSig == [] then last else IsClause(s.typeSig))
  }

  /** What follows a statement: another one, or the end of the block. */
  predicate StmtTail(ts: seq<Token>) {
    ts != [] && (ts[0].Val? || ts[0] == Punct('}')
      || (ts[0].Word? && ts[0].text !in {"to", "_"} && !Starts(ts[1..], Punct('<'))))
  }

  const NOTHING := Body([], [], false, false)

  lemma {:induction false} DictStart(d: Dict, tail: seq<Token>)
    ensures var ts := DictTokens(d) + tail; ts[0] == Punct('{') && ArgTail(ts)
  {
  }

  /** Reading on through a dictionary. */
  lemma {:induction false} DictReads(braced: Dict, tail: seq<Token>, b: Body)
    requires GoodDict(braced) && !b.seen && DistinctKeys(b.attrs + braced)
    ensures ParseArgs(DictTokens(braced) + tail, b)
            == ParseArgs(tail, Body(b.args, b.attrs + braced, true, b.first || b.args == []))
  {
    DictRoundTrip(braced, tail);
    DictStart(braced, tail);
    UpdateNew(b.attrs, braced);
    hide ParseDict, DictTokens, Update, GoodDict, DistinctKeys, ParseSquare, ParseRound, ParseRef, ParseAttr;
  }

  lemma {:induction false} StopsHere(ts: seq<Token>, b: Body)
    requires ts != [] && ts[0] in {Punct('}'), Punct(':')}
    ensures ParseArgs(ts, b) == Done(b, ts) && ArgTail(ts)
  {
  }

  /** Operands and dictionary are read back, each in its place. */
  lemma {:induction false} BodyReads(args: seq<Arg>, braced: Dict, first: bool, tail: seq<Token>)
    requires (forall a | a in args :: GoodArg(a)) && GoodDict(braced) && tail != []
    requires tail[0] in {Punct('}'), Punct(':')}
    requires DistinctKeys(if first then braced + Inlines(args) else Inlines(args) + braced)
    requires (braced == [] ==> !first) && (args == [] && braced != [] ==> first)
    ensures var attrs := if first then braced + Inlines(args) else Inlines(args) + braced;
            ParseArgs(PrintBody(args, braced, first, tail), NOTHING) ==
              Done(Body(args, attrs, braced != [], first), tail)
  {
    hide ParseArgs, PrintArgs, GoodArg, GoodDict, DistinctKeys, DictTokens, ArgTail;
    if braced == [] {
      PlainReads(args, tail);
    } else if first {
      PrefixKeys(braced, Inlines(args));
      FirstReads(args, braced, tail);
    } else {
      PrefixKeys(Inlines(args), braced);
      LastReads(args, braced, tail);
    }
  }

  lemma {:induction false} PrefixKeys(a: Dict, b: Dict)
    requires DistinctKeys(a + b)
    ensures DistinctKeys(a)
  {
    forall i, j | 0 <= i < j < |a| ensures a[i].key != a[j].key {
      assert (a + b)[i] == a[i] && (a + b)[j] == a[j];
    }
  }

  lemma {:induction false} PlainReads(args: seq<Arg>, tail: seq<Token>)
    requires (forall a | a in args :: GoodArg(a)) && tail != [] && tail[0] in {Punct('}'), Punct(':')}
    requires DistinctKeys(Inlines(args) + [])
    ensures ParseArgs(PrintArgs(args, tail), NOTHING) == Done(Body(args, Inlines(args) + [], false, false), tail)
  {
    hide ParseArgs, PrintArgs, GoodArg, DistinctKeys, ArgTail;
    assert [] + Inlines(args) == Inlines(args) + [] && [] + args == args;
    StopsHere(tail, WithAll(NOTHING, args));
    ArgsRoundTrip(args, tail, NOTHING);
  }

  lemma {:induction false} FirstReads(args: seq<Arg>, braced: Dict, tail: seq<Token>)
    requires (forall a | a in args :: GoodArg(a)) && GoodDict(braced) && tail != []
    requires tail[0] in {Punct('}'), Punct(':')}
    requires DistinctKeys(braced + Inlines(args)) && DistinctKeys(braced)
    ensures ParseArgs(DictTokens(braced) + PrintArgs(args, tail), NOTHING) ==
              Done(Body(args, braced + Inlines(args), true, true), tail)
  {
    hide ParseArgs, PrintArgs, GoodArg, GoodDict, DistinctKeys, DictTokens, ArgTail;
    assert [] + braced == braced && [] + args == args;
    DictReads(braced, PrintArgs(args, tail), NOTHING);
    var b := Body([], braced, true, true);
    StopsHere(tail, WithAll(b, args));
    ArgsRoundTrip(args, tail, b);
  }

  lemma {:induction false} LastReads(args: seq<Arg>, braced: Dict, tail: seq<Token>)
    requires (forall a | a in args :: GoodArg(a)) && GoodDict(braced) && tail != []
    requires tail[0] in {Punct('}'), Punct(':')}
    requires DistinctKeys(Inlines(args) + braced) && DistinctKeys(Inlines(args)) && args != []
    ensures ParseArgs(PrintArgs(args, DictTokens(braced) + tail), NOTHING) ==
              Done(Body(args, Inlines(args) + braced, true, false), tail)
  {
    hide ParseArgs, PrintArgs, GoodArg, GoodDict, DistinctKeys, DictTokens, ArgTail;
    assert [] + Inlines(args) == Inlines(args) && [] + args == args;
    DictStart(braced, tail);
    ArgsRoundTrip(args, DictTokens(braced) + tail, NOTHING);
    var b := WithAll(NOTHING, args);
    DictReads(braced, tail, b);
    StopsHere(tail, Body(args, Inlines(args) + braced, true, false));
  }

  lemma {:induction false} ClauseRoundTrip(typeSig: seq<Token>, tail: seq<Token>)
    requires (typeSig == [] && !Starts(tail, Punct(':')))
               || (IsClause(typeSig) && EndsTypes(tail) && typeSig != [])
    ensures ParseClause(PrintClause(typeSig, tail)) == Done(typeSig, tail)
  {
    if typeSig != [] {
      var ts := PrintClause(typeSig, tail);
      assert ts[1..] == typeSig + tail;
      ClauseIff(typeSig);
      ClauseStands(typeSig, tail);
      hide IsClause, ClauseLength;
      assert (typeSig + tail)[..|typeSig|] == typeSig && (typeSig + tail)[|typeSig|..] == tail;
    }
  }

  lemma {:induction false} LhsReads(results: seq<Ref>, tail: seq<Token>)
    requires GoodResults(results) && tail != [] && !tail[0].Val?
    ensures PrintLhs(results, tail) != []
    ensures results == [] ==> PrintLhs(results, tail) == tail
    ensures results != [] ==>
              PrintLhs(results, tail)[0].Val? && ParseLhs(PrintLhs(results, tail), []) == Done(results, tail)
  {
    if results != [] {
      LhsRoundTripIff(results, tail);
    }
  }

  lemma {:induction false} StmtTailEnds(ts: seq<Token>)
    requires StmtTail(ts)
    ensures EndsTypes(ts) && !Starts(ts, Punct(':'))
  {
  }

  /** A good statement is read back, whatever statement or end of block follows. */
  lemma {:induction false} StmtRoundTrip(s: Stmt, last: bool, tail: seq<Token>)
    requires GoodStmt(s, last) && StmtTail(tail) && (last ==> tail[0] == Punct('}'))
    ensures ParseStmt(PrintStmt(s, tail)) == Done(s, tail)
    ensures StmtTail(PrintStmt(s, tail)) && PrintStmt(s, tail)[0] != Punct('}')
  {
    var inline := Inlines(s.args);
    var braced := Braced(s.attrs, inline);
    var clause := PrintClause(s.typeSig, tail);
    StmtTailEnds(tail);
    ClauseRoundTrip(s.typeSig, tail);
    assert clause != [] && clause[0] in {Punct('}'), Punct(':')};
    hide GoodArg, GoodDict, DistinctKeys, IsClause, PrintClause, ParseClause;
    BodyReads(s.args, braced, s.first, clause);
    BodyBegins(s.args, braced, s.first, clause);
    var rest := [Word(s.op)] + PrintBody(s.args, braced, s.first, clause);
    assert rest[1..] == PrintBody(s.args, braced, s.first, clause);
    LhsReads(s.results, rest);
    hide GoodResults, PrintLhs, ParseLhs, PrintBody, ParseArgs, Braced, Inlines, EndsTypes;
    StmtReads(s, braced != [], PrintLhs(s.results, rest), rest, clause, tail);
  }

  /** The statement's parts, read one after the other. */
  lemma {:induction false} StmtReads(s: Stmt, seen: bool, ts: seq<Token>, rest: seq<Token>, clause: seq<Token>,
      tail: seq<Token>)
    requires ts != [] && rest != [] && rest[0] == Word(s.op) && Stripped(s.op) == s.op
    requires s.results == [] ==> ts == rest
    requires s.results != [] ==> ts[0].Val? && ParseLhs(ts, []) == Done(s.results, rest)
    requires ParseArgs(rest[1..], NOTHING) == Done(Body(s.args, s.attrs, seen, s.first), clause)
    requires ParseClause(clause) == Done(s.typeSig, tail)
    ensures ParseStmt(ts) == Done(s, tail)
  {
    hide ParseLhs, ParseArgs, ParseClause, Stripped;
  }

  lemma {:induction false} BodyBegins(args: seq<Arg>, braced: Dict, first: bool, tail: seq<Token>)
    requires (forall a | a in args :: GoodArg(a)) && tail != [] && tail[0] in {Punct('}'), Punct(':')}
    ensures !Starts(PrintBody(args, braced, first, tail), Punct('<'))
  {
    DictStart(braced, PrintArgs(args, tail));
    DictStart(braced, tail);
    ArgsBegin(args, tail);
    ArgsBegin(args, DictTokens(braced) + tail);
  }
}
