/**
 Statements as they may be written, with what each means; the reader accepts these and no others (`_parse_op` and
 what it calls in bdc/hs/parse.py).
 */
module StmtTexts {
  import opened Attributes
  import opened TypeClauses
  import opened Statements
  import T = AttrTexts

  // ---- results --------------------------------------------------------------------

  /** `%base`, or `%base:count`. */
  datatype Bind = Single(base: string) | Counted(base: string, count: int)

  function BindTokens(b: Bind, tail: seq<Token>): seq<Token> {
    match b
    case Single(base) => [Val(base)] + tail
    case Counted(base, count) => [Val(base), Punct(':'), Int(count)] + tail
  }

  function BindsTokens(bs: seq<Bind>, tail: seq<Token>): seq<Token> {
    if bs == [] then tail
    else BindTokens(bs[0], [Punct(if |bs| == 1 then '=' else ',')] + BindsTokens(bs[1..], tail))
  }

  /** One name, or `count` of them, numbered from zero; none for a count that is not positive. */
  function BoundBy(b: Bind): seq<Ref> {
    match b
    case Single(base) => [Ref(base, Whole)]
    case Counted(base, count) => seq(if count < 0 then 0 else count, i => Ref(base, Part(i)))
  }

  function AllBound(bs: seq<Bind>): seq<Ref> {
    if bs == [] then [] else BoundBy(bs[0]) + AllBound(bs[1..])
  }

  lemma {:induction false} GroupIsNumbered(base: string, k: nat)
    ensures Group(base, k) == seq(k, i => Ref(base, Part(i)))
  {
    GroupAt(base, k);
  }

  lemma {:induction false} BindReads(b: Bind, tail: seq<Token>)
    requires tail != [] && tail[0] != Punct(':')
    ensures ParseBinding(BindTokens(b, tail)) == Done(BoundBy(b), tail)
  {
    var ts := BindTokens(b, tail);
    match b
    case Single(base) => assert ts[1..] == tail;
    case Counted(base, count) =>
      assert ts[1..][0] == Punct(':') && ts[2] == Int(count) && ts[3..] == tail;
      GroupIsNumbered(base, if count < 0 then 0 else count);
  }

  /** One binding, and what is read after it. */
  lemma {:induction false} BindStep(b: Bind, more: bool, rest: seq<Token>, acc: seq<Ref>)
    ensures ParseLhs(BindTokens(b, [Punct(if more then ',' else '=')] + rest), acc) ==
              if more then ParseLhs(rest, acc + BoundBy(b)) else Done(acc + BoundBy(b), rest)
  {
    var after := [Punct(if more then ',' else '=')] + rest;
    BindReads(b, after);
    hide BindTokens, BoundBy, ParseBinding;
    assert after[1..] == rest;
  }

  /** Bindings are read as the results they name. */
  lemma {:induction false} BindsRead(bs: seq<Bind>, acc: seq<Ref>, tail: seq<Token>)
    requires bs != []
    ensures ParseLhs(BindsTokens(bs, tail), acc) == Done(acc + AllBound(bs), tail)
    decreases |bs|
  {
    var b, more := bs[0], bs[1..];
    assert [b] + more == bs;
    BindsUnfold(bs, tail);
    NoBinds(tail);
    hide *;
    BindsJoin(b, more, tail, acc);
    BindStep(b, more != [], BindsTokens(more, tail), acc);
    if more != [] {
      BindsRead(more, acc + BoundBy(b), tail);
    } else {
      assert acc + BoundBy(b) + [] == acc + BoundBy(b);
    }
  }

  lemma {:induction false} ReadIsBind(ts: seq<Token>) returns (b: Bind)
    requires ParseBinding(ts).Done?
    ensures var r := ParseBinding(ts); ts == BindTokens(b, r.rest) && r.value == BoundBy(b)
  {
    if Starts(ts[1..], Punct(':')) {
      b := Counted(ts[0].name, ts[2].value);
      GroupIsNumbered(ts[0].name, if ts[2].value < 0 then 0 else ts[2].value);
      assert ts == [ts[0], ts[1], ts[2]] + ts[3..];
    } else {
      b := Single(ts[0].name);
      assert ts == [ts[0]] + ts[1..];
    }
  }

  lemma {:induction false} BindsJoin(b: Bind, more: seq<Bind>, rest: seq<Token>, acc: seq<Ref>)
    ensures BindsTokens([b] + more, rest) ==
              BindTokens(b, [Punct(if more == [] then '=' else ',')] + BindsTokens(more, rest))
    ensures acc + BoundBy(b) + AllBound(more) == acc + AllBound([b] + more)
  {
    hide BindTokens, BoundBy;
    assert ([b] + more)[1..] == more;
    assert AllBound([b] + more) == BoundBy(b) + AllBound(more);
    BindsUnfold([b] + more, rest);
    hide AllBound, BindsTokens;
    assert acc + BoundBy(b) + AllBound(more) == acc + (BoundBy(b) + AllBound(more));
  }

  lemma {:induction false} BindsUnfold(bs: seq<Bind>, rest: seq<Token>)
    requires bs != []
    ensures BindsTokens(bs, rest) ==
              BindTokens(bs[0], [Punct(if bs[1..] == [] then '=' else ',')] + BindsTokens(bs[1..], rest))
  {
    hide BindTokens;
  }

  /** One binding, and what is read after it. */
  lemma {:induction false} BindBack(ts: seq<Token>, acc: seq<Ref>)
    requires ParseLhs(ts, acc).Done?
    ensures ParseBinding(ts).Done? && var b := ParseBinding(ts);
            && b.rest != [] && b.rest[0] in {Punct(','), Punct('=')} && b.rest == [b.rest[0]] + b.rest[1..]
            && ParseLhs(ts, acc) ==
                 if b.rest[0] == Punct(',') then ParseLhs(b.rest[1..], acc + b.value)
                 else Done(acc + b.value, b.rest[1..])
  {
    hide ParseBinding;
  }

  /** Whatever is read as a left-hand side is bindings. */
  lemma {:induction false} ReadIsBinds(ts: seq<Token>, acc: seq<Ref>) returns (bs: seq<Bind>)
    requires ParseLhs(ts, acc).Done?
    ensures bs != [] && var r := ParseLhs(ts, acc); ts == BindsTokens(bs, r.rest) && r.value == acc + AllBound(bs)
    decreases |ts|
  {
    BindBack(ts, acc);
    NoBinds(ParseLhs(ts, acc).rest);
    hide *;
    var b := ReadIsBind(ts);
    var after := ParseBinding(ts).rest;
    var more := [];
    if after[0] == Punct(',') {
      more := ReadIsBinds(after[1..], acc + BoundBy(b));
    }
    BindsJoin(b, more, ParseLhs(ts, acc).rest, acc);
    bs := [b] + more;
    assert acc + BoundBy(b) + [] == acc + BoundBy(b);
  }

  lemma {:induction false} NoBinds(tail: seq<Token>)
    ensures BindsTokens([], tail) == tail && AllBound([]) == []
  {
  }

  // ---- operands -------------------------------------------------------------------

  /**
   What may stand between the mnemonic and the type clause; `comma` says one follows. In square brackets a comma
   may follow the last item; in parentheses each comma may be left out.
   */
  datatype Chunk = Alone(ref: Ref, comma: bool) | Named(token: Token, comma: bool)
                 | InSquare(items: seq<Item>, trailing: bool, comma: bool)
                 | InRound(refs: seq<Ref>, commas: seq<bool>, comma: bool)
                 | Property(key: string, value: T.Text, comma: bool)
                 | Braces(entries: seq<T.Pair>, trailing: bool)

  /** Values with a comma after those for which `commas` has one. */
  function RoundTokens(refs: seq<Ref>, commas: seq<bool>, tail: seq<Token>): seq<Token>
    decreases |refs|
  {
    if refs == [] then tail
    else if commas == [] then PrintRef(refs[0], RoundTokens(refs[1..], [], tail))
    else PrintRef(refs[0], CommaTail(commas[0], RoundTokens(refs[1..], commas[1..], tail)))
  }

  function ChunkTokens(c: Chunk, tail: seq<Token>): seq<Token> {
    match c
    case Alone(ref, comma) => PrintRef(ref, CommaTail(comma, tail))
    case Named(token, comma) => [token] + CommaTail(comma, tail)
    case InSquare(items, trailing, comma) =>
      [Punct('[')] + PrintItems(items, CommaTail(trailing, [Punct(']')] + CommaTail(comma, tail)))
    case InRound(refs, commas, comma) =>
      [Punct('(')] + RoundTokens(refs, commas, [Punct(')')] + CommaTail(comma, tail))
    case Property(key, value, comma) => [Word(key), Punct('=')] + (T.TextTokens(value) + CommaTail(comma, tail))
    case Braces(entries, trailing) => T.TextTokens(T.Dictionary(entries, trailing)) + tail
  }

  function ChunksTokens(cs: seq<Chunk>, tail: seq<Token>): seq<Token> {
    if cs == [] then tail else ChunkTokens(cs[0], ChunksTokens(cs[1..], tail))
  }

  function Operands(refs: seq<Ref>): seq<Item> {
    seq(|refs|, i requires 0 <= i < |refs| => Operand(refs[i], []))
  }

  /** What has been read once `c` has been read after `b`. */
  function Apply(b: Body, c: Chunk): Body {
    match c
    case Alone(ref, comma) => Push(b, Bare, [Operand(ref, [])], comma)
    case Named(token, comma) => Push(b, Bare, [Literal(token)], comma)
    case InSquare(items, _, comma) => Push(b, Square, items, comma)
    case InRound(refs, _, comma) => Push(b, Round, Operands(refs), comma)
    case Property(key, value, comma) =>
      b.(args := b.args + [Inline(key, T.Value(value), comma)], attrs := Assign(b.attrs, key, T.Value(value)))
    case Braces(entries, _) =>
      b.(attrs := Update(b.attrs, T.Entries([], entries)), seen := true, first := b.first || b.args == [])
  }

  function ApplyAll(b: Body, cs: seq<Chunk>): Body
    decreases |cs|
  {
    if cs == [] then b else ApplyAll(Apply(b, cs[0]), cs[1..])
  }

  /** In brackets: a value with its type or without, a number or a word. */
  ghost predicate Writable(x: Item) {
    match x
    case Operand(_, suffix) => suffix == [] || IsAtom(suffix)
    case Literal(t) => t.Int? || t.Word?
  }

  /** `following` is what the text goes on with. */
  ghost predicate GoodChunk(c: Chunk, following: seq<Token>) {
    match c
    case Alone(_, _) => true
    case Named(token, _) => token.Sym? || token.Word?
    case InSquare(items, trailing, _) => (trailing ==> items != []) && forall x | x in items :: Writable(x)
    case InRound(_, _, _) => true
    case Property(_, value, comma) => T.GoodText(value, false) && T.EndsAt(value, false, CommaTail(comma, following))
    case Braces(entries, trailing) => T.GoodText(T.Dictionary(entries, trailing), true)
  }

  /** Good chunks, and no second dictionary. */
  ghost predicate GoodChunks(cs: seq<Chunk>, seen: bool, tail: seq<Token>)
    decreases |cs|
  {
    cs != [] ==>
      (cs[0].Braces? ==> !seen) && GoodChunk(cs[0], ChunksTokens(cs[1..], tail))
        && GoodChunks(cs[1..], seen || cs[0].Braces?, tail)
  }

  /** Where the operands end: at a type clause, the end of the block, or the end of the text. */
  ghost predicate ArgsEnd(tail: seq<Token>) {
    tail == [] || tail[0] in {Punct('}'), Punct(':')}
  }

  /** What may come after a chunk. */
  ghost predicate Follows(ts: seq<Token>) {
    ts == [] || ArgTail(ts)
  }

  lemma {:induction false} TailEaten(comma: bool, tail: seq<Token>)
    requires Follows(tail)
    ensures EatComma(CommaTail(comma, tail)) == (comma, tail)
    ensures CommaTail(comma, tail) == [] || CommaTail(comma, tail)[0] !in {Punct('#'), Punct('=')}
  {
    assert comma ==> CommaTail(comma, tail)[1..] == tail;
  }

  // ---- everything written is read -----------------------------------------------------

  lemma {:induction false} RoundReads(refs: seq<Ref>, commas: seq<bool>, acc: seq<Item>, rest: seq<Token>)
    ensures ParseRound(RoundTokens(refs, commas, [Punct(')')] + rest), acc) == Done(acc + Operands(refs), rest)
    decreases |refs|
  {
    var close := [Punct(')')] + rest;
    if refs == [] {
      assert close[1..] == rest && acc + Operands(refs) == acc;
    } else {
      var comma, later := commas != [] && commas[0], if commas == [] then [] else commas[1..];
      var inside := RoundTokens(refs[1..], later, close);
      RoundBegins(refs[1..], later, close);
      RoundReads(refs[1..], later, acc + [Operand(refs[0], [])], rest);
      assert RoundTokens(refs, commas, close) == PrintRef(refs[0], CommaTail(comma, inside));
      assert acc + [Operand(refs[0], [])] + Operands(refs[1..]) == acc + Operands(refs);
      hide Operands, RoundTokens;
      RoundStep(refs[0], comma, inside, acc);
    }
  }

  lemma {:induction false} RoundStep(r: Ref, comma: bool, inside: seq<Token>, acc: seq<Item>)
    requires inside != [] && (inside[0].Val? || inside[0] == Punct(')'))
    ensures ParseRound(PrintRef(r, CommaTail(comma, inside)), acc) == ParseRound(inside, acc + [Operand(r, [])])
  {
    var after := CommaTail(comma, inside);
    RefRoundTrip(r, after);
    RefStarts(r, after);
    assert comma ==> after[1..] == inside;
    hide ParseRef, PrintRef;
  }

  lemma {:induction false} RoundBegins(refs: seq<Ref>, commas: seq<bool>, tail: seq<Token>)
    requires Starts(tail, Punct(')'))
    ensures var ts := RoundTokens(refs, commas, tail); ts != [] && (ts[0].Val? || ts[0] == Punct(')'))
  {
  }

  lemma {:induction false} ItemReads(x: Item, tail: seq<Token>)
    requires Writable(x) && tail != [] && tail[0] in {Punct(','), Punct(']')}
    ensures ParseItem(PrintItem(x, tail)) == Done(x, tail)
    ensures !Starts(PrintItem(x, tail), Punct(']'))
  {
    match x
    case Literal(t) => assert ([t] + tail)[1..] == tail;
    case Operand(_, _) => ItemRoundTrip(x, tail);
  }

  lemma {:induction false} SquareReads(xs: seq<Item>, trailing: bool, acc: seq<Item>, rest: seq<Token>)
    requires (forall x | x in xs :: Writable(x)) && (trailing ==> xs != [])
    ensures ParseSquare(PrintItems(xs, CommaTail(trailing, [Punct(']')] + rest)), acc) == Done(acc + xs, rest)
    decreases |xs|
  {
    var close := [Punct(']')] + rest;
    var end := CommaTail(trailing, close);
    if xs == [] {
      assert close[1..] == rest && acc + xs == acc;
    } else {
      assert xs[0] in xs;
      var after := if |xs| == 1 then end else [Punct(',')] + PrintItems(xs[1..], end);
      assert PrintItems(xs, end) == PrintItem(xs[0], after);
      assert acc + [xs[0]] + xs[1..] == acc + xs;
      ItemReads(xs[0], after);
      if |xs| > 1 {
        SquareReads(xs[1..], trailing, acc + [xs[0]], rest);
        assert after[1..] == PrintItems(xs[1..], end);
      } else {
        SquareEnds(acc + [xs[0]], rest);
        assert xs == [xs[0]];
        assert trailing ==> after[1..] == close;
      }
      hide ParseItem, PrintItem, PrintItems, Writable;
    }
  }

  lemma {:induction false} SquareEnds(acc: seq<Item>, rest: seq<Token>)
    ensures ParseSquare([Punct(']')] + rest, acc) == Done(acc, rest)
  {
    assert ([Punct(']')] + rest)[1..] == rest;
  }

  lemma {:induction false} ChunkBegins(c: Chunk, tail: seq<Token>)
    requires GoodChunk(c, tail)
    ensures ArgTail(ChunkTokens(c, tail))
  {
    hide IsAtom;
  }

  lemma {:induction false} ChunksBegin(cs: seq<Chunk>, seen: bool, tail: seq<Token>)
    requires GoodChunks(cs, seen, tail) && ArgsEnd(tail)
    ensures Follows(ChunksTokens(cs, tail))
  {
    if cs != [] {
      ChunkBegins(cs[0], ChunksTokens(cs[1..], tail));
    }
  }

  /** A dictionary among the operands. */
  lemma {:induction false} BracesRead(c: Chunk, tail: seq<Token>, b: Body)
    requires c.Braces? && GoodChunk(c, tail) && !b.seen
    ensures ParseArgs(ChunkTokens(c, tail), b) == ParseArgs(tail, Apply(b, c))
  {
    var ts := ChunkTokens(c, tail);
    T.DictionaryIff(ts, T.Entries([], c.entries), tail);
    assert ts[0] == Punct('{');
    hide ParseDict, Update;
  }

  lemma {:induction false} PropertyReads(c: Chunk, tail: seq<Token>, b: Body)
    requires c.Property? && GoodChunk(c, tail) && Follows(tail)
    ensures ParseArgs(ChunkTokens(c, tail), b) == ParseArgs(tail, Apply(b, c))
  {
    var ts, after := ChunkTokens(c, tail), CommaTail(c.comma, tail);
    TailEaten(c.comma, tail);
    T.TextReads(c.value, false, after);
    assert ts[0] == Word(c.key) && ts[1..][0] == Punct('=') && ts[2..] == T.TextTokens(c.value) + after;
    hide ParseAttr, EatComma, CommaTail, Assign, ParseDict, ParseRef, ParseSquare, ParseRound;
  }

  lemma {:induction false} SegmentReads(ts: seq<Token>, wrap: Wrap, items: seq<Item>, comma: bool, after: seq<Token>,
      tail: seq<Token>, b: Body)
    requires ts != [] && EatComma(after) == (comma, tail)
    requires match wrap
             case Square => ts[0] == Punct('[') && ParseSquare(ts[1..], []) == Done(items, after)
             case Round => ts[0] == Punct('(') && ParseRound(ts[1..], []) == Done(items, after)
             case Bare =>
               || (ts[0].Val? && exists r :: ParseRef(ts) == Done(r, after) && items == [Operand(r, [])])
               || ((ts[0].Sym? || ts[0].Word?) && !Starts(ts[1..], Punct('=')) && ts[1..] == after
                   && items == [Literal(ts[0])])
    ensures ParseArgs(ts, b) == ParseArgs(tail, Push(b, wrap, items, comma))
  {
    hide ParseRef, EatComma, ParseSquare, ParseRound, ParseDict, ParseAttr;
  }

  /** One chunk, and what is read after it. */
  lemma {:induction false} ChunkReads(c: Chunk, tail: seq<Token>, b: Body)
    requires GoodChunk(c, tail) && Follows(tail) && (c.Braces? ==> !b.seen)
    ensures ParseArgs(ChunkTokens(c, tail), b) == ParseArgs(tail, Apply(b, c))
  {
    match c
    case Braces(_, _) => BracesRead(c, tail, b);
    case Property(_, _, _) => PropertyReads(c, tail, b);
    case Alone(ref, comma) =>
      var after := CommaTail(comma, tail);
      TailEaten(comma, tail);
      RefRoundTrip(ref, after);
      RefStarts(ref, after);
      hide ParseArgs, ParseRef, PrintRef, CommaTail, EatComma;
      SegmentReads(PrintRef(ref, after), Bare, [Operand(ref, [])], comma, after, tail, b);
    case Named(token, comma) =>
      var after := CommaTail(comma, tail);
      TailEaten(comma, tail);
      assert ([token] + after)[1..] == after;
      hide ParseArgs, CommaTail, EatComma;
      SegmentReads([token] + after, Bare, [Literal(token)], comma, after, tail, b);
    case InSquare(items, trailing, comma) =>
      var after := CommaTail(comma, tail);
      TailEaten(comma, tail);
      SquareReads(items, trailing, [], after);
      var inside := PrintItems(items, CommaTail(trailing, [Punct(']')] + after));
      assert ([Punct('[')] + inside)[1..] == inside && [] + items == items;
      hide ParseArgs, CommaTail, EatComma, PrintItems, ParseSquare;
      SegmentReads([Punct('[')] + inside, Square, items, comma, after, tail, b);
    case InRound(refs, commas, comma) =>
      var after := CommaTail(comma, tail);
      TailEaten(comma, tail);
      RoundReads(refs, commas, [], after);
      var inside := RoundTokens(refs, commas, [Punct(')')] + after);
      assert ([Punct('(')] + inside)[1..] == inside && [] + Operands(refs) == Operands(refs);
      hide ParseArgs, CommaTail, EatComma, RoundTokens, ParseRound;
      SegmentReads([Punct('(')] + inside, Round, Operands(refs), comma, after, tail, b);
  }

  /** Everything written between mnemonic and type clause is read, in order. */
  lemma {:induction false} ChunksRead(cs: seq<Chunk>, tail: seq<Token>, b: Body)
    requires GoodChunks(cs, b.seen, tail) && ArgsEnd(tail)
    ensures ParseArgs(ChunksTokens(cs, tail), b) == Done(ApplyAll(b, cs), tail)
    decreases |cs|
  {
    if cs != [] {
      ChunksBegin(cs[1..], b.seen || cs[0].Braces?, tail);
      ChunkReads(cs[0], ChunksTokens(cs[1..], tail), b);
      hide ParseArgs, ChunkTokens, GoodChunk;
      ChunksRead(cs[1..], tail, Apply(b, cs[0]));
    }
  }

  // ---- nothing else is read -----------------------------------------------------------

  lemma {:induction false} ReadIsRef(ts: seq<Token>)
    requires ParseRef(ts).Done?
    ensures var r := ParseRef(ts); ts == PrintRef(r.value, r.rest)
  {
    if Starts(ts[1..], Punct('#')) {
      assert ts == [ts[0], ts[1], ts[2]] + ts[3..];
    } else {
      assert ts == [ts[0]] + ts[1..];
    }
  }

  lemma {:induction false} CommaRead(after: seq<Token>)
    ensures after == CommaTail(EatComma(after).0, EatComma(after).1)
  {
  }

  lemma {:induction false} RoundBack(ts: seq<Token>, acc: seq<Item>)
    requires ParseRound(ts, acc).Done? && !Starts(ts, Punct(')'))
    ensures ParseRef(ts).Done? && var r := ParseRef(ts);
            ParseRound(ts, acc) == ParseRound(EatComma(r.rest).1, acc + [Operand(r.value, [])])
  {
    hide ParseRef;
  }

  lemma {:induction false} ReadIsRound(ts: seq<Token>, acc: seq<Item>) returns (refs: seq<Ref>, commas: seq<bool>)
    requires ParseRound(ts, acc).Done?
    ensures var r := ParseRound(ts, acc);
            ts == RoundTokens(refs, commas, [Punct(')')] + r.rest) && r.value == acc + Operands(refs)
    decreases |ts|
  {
    if Starts(ts, Punct(')')) {
      refs, commas := [], [];
      assert ts == [ts[0]] + ts[1..] && acc + Operands([]) == acc;
    } else {
      RoundBack(ts, acc);
      ReadIsRef(ts);
      var r := ParseRef(ts);
      CommaRead(r.rest);
      var (comma, next) := EatComma(r.rest);
      hide ParseRound, ParseRef, PrintRef, EatComma, CommaTail, Operands, RoundTokens;
      var more, later := ReadIsRound(next, acc + [Operand(r.value, [])]);
      refs, commas := [r.value] + more, [comma] + later;
      RoundJoin(r.value, comma, more, later, [Punct(')')] + ParseRound(ts, acc).rest, acc);
    }
  }

  lemma {:induction false} RoundJoin(r: Ref, comma: bool, more: seq<Ref>, later: seq<bool>, tail: seq<Token>,
      acc: seq<Item>)
    ensures RoundTokens([r] + more, [comma] + later, tail) ==
              PrintRef(r, CommaTail(comma, RoundTokens(more, later, tail)))
    ensures acc + [Operand(r, [])] + Operands(more) == acc + Operands([r] + more)
  {
    assert ([r] + more)[1..] == more && ([comma] + later)[1..] == later;
  }

  lemma {:induction false} ReadIsItem(ts: seq<Token>)
    requires ParseItem(ts).Done?
    ensures var r := ParseItem(ts); Writable(r.value) && ts == PrintItem(r.value, r.rest)
  {
    hide ParseRef, PrintRef, IsAtom, AtomLength;
    if ts[0].Int? || ts[0].Word? {
      assert ts == [ts[0]] + ts[1..];
    } else {
      ReadIsRef(ts);
      var after := ParseRef(ts).rest;
      if Starts(after, Punct(':')) {
        TypeRead(after);
      }
    }
  }

  /** A colon and the type after it. */
  lemma {:induction false} TypeRead(after: seq<Token>)
    requires Starts(after, Punct(':')) && AtomLength(after[1..]).Of? && AtomLength(after[1..]).n > 0
    ensures var n, types := AtomLength(after[1..]).n, after[1..];
            IsAtom(types[..n]) && types[..n] != [] && after == [Punct(':')] + (types[..n] + types[n..])
  {
    var types := after[1..];
    var n := AtomLength(types).n;
    AtomPrefix(types, n);
    AtomIff(types[..n]);
    hide IsAtom, AtomLength;
    assert types == types[..n] + types[n..];
    assert after == [after[0]] + types;
  }

  lemma {:induction false} SquareBack(ts: seq<Token>, acc: seq<Item>)
    requires ParseSquare(ts, acc).Done? && !Starts(ts, Punct(']'))
    ensures ParseItem(ts).Done? && var x := ParseItem(ts);
            && (Starts(x.rest, Punct(',')) || Starts(x.rest, Punct(']')))
            && ParseSquare(ts, acc) == ParseSquare(EatComma(x.rest).1, acc + [x.value])
  {
    hide ParseItem;
  }

  lemma {:induction false} SquareOver(ts: seq<Token>, acc: seq<Item>)
    requires Starts(ts, Punct(']'))
    ensures ParseSquare(ts, acc) == Done(acc, ts[1..]) && ts == [Punct(']')] + ts[1..]
  {
  }

  ghost predicate SquareIs(ts: seq<Token>, acc: seq<Item>, items: seq<Item>, trailing: bool) {
    var r := ParseSquare(ts, acc);
    && r.Done? && (forall x | x in items :: Writable(x)) && (trailing ==> items != [])
    && r.value == acc + items && ts == PrintItems(items, CommaTail(trailing, [Punct(']')] + r.rest))
  }

  lemma {:induction false} ReadIsSquare(ts: seq<Token>, acc: seq<Item>) returns (items: seq<Item>, trailing: bool)
    requires ParseSquare(ts, acc).Done?
    ensures SquareIs(ts, acc, items, trailing)
    decreases |ts|
  {
    if Starts(ts, Punct(']')) {
      items, trailing := [], false;
      SquareOver(ts, acc);
      assert acc + [] == acc;
      hide ParseSquare;
    } else {
      SquareBack(ts, acc);
      ReadIsItem(ts);
      var x := ParseItem(ts);
      CommaRead(x.rest);
      var (comma, next) := EatComma(x.rest);
      assert comma == Starts(x.rest, Punct(','));
      var more, last := ReadIsSquare(next, acc + [x.value]);
      hide *;
      items, trailing := [x.value] + more, if more == [] then comma else last;
      SquareJoin(ts, acc, x.value, x.rest, comma, next, more, last);
    }
  }

  lemma {:induction false} ItemsBegin(items: seq<Item>, tail: seq<Token>)
    requires forall x | x in items :: Writable(x)
    ensures items != [] ==> !Starts(PrintItems(items, tail), Punct(']'))
  {
    if items != [] {
      assert Writable(items[0]);
      hide IsAtom;
    }
  }

  lemma {:induction false} SquareJoin(ts: seq<Token>, acc: seq<Item>, x: Item, after: seq<Token>, comma: bool,
      next: seq<Token>, more: seq<Item>, last: bool)
    requires Writable(x) && ts == PrintItem(x, after) && after == CommaTail(comma, next)
    requires !comma ==> Starts(next, Punct(']'))
    requires SquareIs(next, acc + [x], more, last) && ParseSquare(ts, acc) == ParseSquare(next, acc + [x])
    ensures SquareIs(ts, acc, [x] + more, if more == [] then comma else last)
  {
    hide ParseSquare, PrintItem, PrintItems, CommaTail, Writable;
    var close := [Punct(']')] + ParseSquare(ts, acc).rest;
    ItemsBegin(more, CommaTail(last, close));
    ItemsJoin(x, after, comma, next, more, last, close);
    assert acc + [x] + more == acc + ([x] + more);
  }

  lemma {:induction false} ItemsJoin(x: Item, after: seq<Token>, comma: bool, next: seq<Token>, more: seq<Item>,
      last: bool, close: seq<Token>)
    requires after == CommaTail(comma, next) && next == PrintItems(more, CommaTail(last, close))
    requires (!comma ==> more == []) && (last ==> more != [])
    ensures PrintItems([x] + more, CommaTail(if more == [] then comma else last, close)) == PrintItem(x, after)
  {
    assert ([x] + more)[1..] == more;
    hide PrintItem;
  }

  lemma {:induction false} ReadIsBraces(ts: seq<Token>, b: Body) returns (c: Chunk, rest: seq<Token>)
    requires Starts(ts, Punct('{')) && ParseArgs(ts, b).Done?
    ensures c.Braces? && !b.seen && ts == ChunkTokens(c, rest) && GoodChunk(c, rest) && |rest| < |ts|
    ensures ParseArgs(ts, b) == ParseArgs(rest, Apply(b, c))
  {
    hide ParseDict, Update, T.TextTokens, T.Entries, T.GoodText;
    var d := ParseDict(ts);
    T.DictionaryIff(ts, d.value, d.rest);
    var entries, trailing :| T.GoodText(T.Dictionary(entries, trailing), true)
      && ts == T.TextTokens(T.Dictionary(entries, trailing)) + d.rest && T.Entries([], entries) == d.value;
    c, rest := Braces(entries, trailing), d.rest;
  }

  lemma {:induction false} ReadIsProperty(ts: seq<Token>, b: Body) returns (c: Chunk, rest: seq<Token>)
    requires |ts| > 1 && ts[0].Word? && ts[1] == Punct('=') && ParseArgs(ts, b).Done?
    ensures c.Property? && ts == ChunkTokens(c, rest) && GoodChunk(c, rest) && |rest| < |ts|
    ensures ParseArgs(ts, b) == ParseArgs(rest, Apply(b, c))
  {
    hide ParseAttr, Assign, EatComma, CommaTail, T.TextTokens, T.Value, T.GoodText, T.EndsAt;
    assert ts[1..][0] == ts[1];
    var v := ParseAttr(ts[2..], false);
    var t := T.ReadIsText(ts[2..], false);
    CommaRead(v.rest);
    c, rest := Property(ts[0].text, t, EatComma(v.rest).0), EatComma(v.rest).1;
    assert ts == [ts[0], ts[1]] + ts[2..];
  }

  /** What comes next is one chunk. */
  lemma {:induction false} ReadIsChunk(ts: seq<Token>, b: Body) returns (c: Chunk, rest: seq<Token>)
    requires !ArgsEnd(ts) && ParseArgs(ts, b).Done?
    ensures ts == ChunkTokens(c, rest) && GoodChunk(c, rest) && |rest| < |ts| && (c.Braces? ==> !b.seen)
    ensures ParseArgs(ts, b) == ParseArgs(rest, Apply(b, c))
  {
    if ts[0] == Punct('{') {
      c, rest := ReadIsBraces(ts, b);
    } else if ts[0].Word? && Starts(ts[1..], Punct('=')) {
      assert ts[1] == ts[1..][0];
      c, rest := ReadIsProperty(ts, b);
    } else if ts[0] == Punct('[') || ts[0] == Punct('(') {
      c, rest := ReadIsGroup(ts, b);
    } else {
      c, rest := ReadIsSingle(ts, b);
    }
  }

  lemma {:induction false} ReadIsGroup(ts: seq<Token>, b: Body) returns (c: Chunk, rest: seq<Token>)
    requires ts != [] && ts[0] in {Punct('['), Punct('(')} && ParseArgs(ts, b).Done?
    ensures ts == ChunkTokens(c, rest) && GoodChunk(c, rest) && |rest| < |ts| && !c.Braces?
    ensures ParseArgs(ts, b) == ParseArgs(rest, Apply(b, c))
  {
    hide ParseSquare, ParseRound, EatComma, CommaTail, RoundTokens, PrintItems, Operands;
    assert ts == [ts[0]] + ts[1..];
    if ts[0] == Punct('[') {
      var r := ParseSquare(ts[1..], []);
      var items, trailing := ReadIsSquare(ts[1..], []);
      CommaRead(r.rest);
      assert [] + items == items;
      c, rest := InSquare(items, trailing, EatComma(r.rest).0), EatComma(r.rest).1;
    } else {
      var r := ParseRound(ts[1..], []);
      var refs, commas := ReadIsRound(ts[1..], []);
      CommaRead(r.rest);
      assert [] + Operands(refs) == Operands(refs);
      c, rest := InRound(refs, commas, EatComma(r.rest).0), EatComma(r.rest).1;
    }
  }

  lemma {:induction false} ReadIsSingle(ts: seq<Token>, b: Body) returns (c: Chunk, rest: seq<Token>)
    requires !ArgsEnd(ts) && ParseArgs(ts, b).Done?
    requires ts[0] !in {Punct('{'), Punct('['), Punct('(')} && !(ts[0].Word? && Starts(ts[1..], Punct('=')))
    ensures ts == ChunkTokens(c, rest) && GoodChunk(c, rest) && |rest| < |ts| && !c.Braces?
    ensures ParseArgs(ts, b) == ParseArgs(rest, Apply(b, c))
  {
    hide ParseRef, PrintRef, EatComma, CommaTail;
    if ts[0].Val? {
      var r := ParseRef(ts);
      ReadIsRef(ts);
      CommaRead(r.rest);
      c, rest := Alone(r.value, EatComma(r.rest).0), EatComma(r.rest).1;
    } else {
      CommaRead(ts[1..]);
      assert ts == [ts[0]] + ts[1..];
      c, rest := Named(ts[0], EatComma(ts[1..]).0), EatComma(ts[1..]).1;
    }
  }

  /** Whatever is read between mnemonic and type clause is chunks. */
  lemma {:induction false} ReadIsChunks(ts: seq<Token>, b: Body) returns (cs: seq<Chunk>)
    requires ParseArgs(ts, b).Done?
    ensures var r := ParseArgs(ts, b);
            GoodChunks(cs, b.seen, r.rest) && ArgsEnd(r.rest) && ts == ChunksTokens(cs, r.rest)
              && r.value == ApplyAll(b, cs)
    decreases |ts|
  {
    if ArgsEnd(ts) {
      cs := [];
    } else {
      var c, rest := ReadIsChunk(ts, b);
      assert Apply(b, c).seen == (b.seen || c.Braces?);
      hide ParseArgs, ChunkTokens, GoodChunk, Apply;
      var more := ReadIsChunks(rest, Apply(b, c));
      cs := [c] + more;
      assert cs[1..] == more;
    }
  }

  // ---- statements -------------------------------------------------------------------

  datatype ClauseText = NoClause | Colon(types: seq<Token>)

  datatype Statement = Statement(binds: seq<Bind>, mnemonic: string, chunks: seq<Chunk>, clause: ClauseText)

  function ClauseTail(c: ClauseText, tail: seq<Token>): seq<Token> {
    match c
    case NoClause => tail
    case Colon(types) => [Punct(':')] + (types + tail)
  }

  function StatementTokens(st: Statement, tail: seq<Token>): seq<Token> {
    BindsTokens(st.binds, [Word(st.mnemonic)] + ChunksTokens(st.chunks, ClauseTail(st.clause, tail)))
  }

  /** The mnemonic without the dialect's name, and everything written after it and before it. */
  function Means(st: Statement): Stmt {
    var body := ApplyAll(NOTHING, st.chunks);
    Stmt(if "handshake." <= st.mnemonic then st.mnemonic[10..] else st.mnemonic,
         body.args, AllBound(st.binds), body.attrs, body.first, if st.clause.Colon? then st.clause.types else [])
  }

  ghost predicate GoodStatement(st: Statement, tail: seq<Token>) {
    && GoodChunks(st.chunks, false, ClauseTail(st.clause, tail))
    && (if st.clause.Colon? then IsClause(st.clause.types) else tail == [] || tail[0] == Punct('}'))
  }

  lemma {:induction false} Prefixed(mnemonic: string)
    ensures Stripped(mnemonic) == if "handshake." <= mnemonic then mnemonic[10..] else mnemonic
  {
    assert |PREFIX| == 10;
    assert "handshake." <= mnemonic <==> |mnemonic| >= 10 && mnemonic[..10] == "handshake.";
  }

  lemma {:induction false} ClauseTailReads(c: ClauseText, tail: seq<Token>)
    requires match c case NoClause => !Starts(tail, Punct(':')) case Colon(types) => IsClause(types) && EndsTypes(tail)
    ensures ParseClause(ClauseTail(c, tail)) == Done(if c.Colon? then c.types else [], tail)
  {
    if c.Colon? {
      ClauseIff(c.types);
      ClauseStands(c.types, tail);
      hide ClauseLength, IsClause, EndsTypes;
      assert ClauseTail(c, tail)[1..] == c.types + tail;
      assert (c.types + tail)[..|c.types|] == c.types && (c.types + tail)[|c.types|..] == tail;
    }
  }

  /** A written statement is read as what it means, if what follows cannot continue its type clause. */
  lemma {:induction false} StatementReads(st: Statement, tail: seq<Token>)
    requires GoodStatement(st, tail) && (st.clause.Colon? ==> EndsTypes(tail))
    ensures ParseStmt(StatementTokens(st, tail)) == Done(Means(st), tail)
  {
    var clause := ClauseTail(st.clause, tail);
    var rest := [Word(st.mnemonic)] + ChunksTokens(st.chunks, clause);
    assert rest[1..] == ChunksTokens(st.chunks, clause);
    ClauseTailReads(st.clause, tail);
    ChunksRead(st.chunks, clause, NOTHING);
    Prefixed(st.mnemonic);
    var ts := StatementTokens(st, tail);
    if st.binds != [] {
      BindsRead(st.binds, [], rest);
      BindsBegin(st.binds, rest);
      assert [] + AllBound(st.binds) == AllBound(st.binds);
    }
    hide ParseLhs, ParseArgs, ParseClause, Stripped, ClauseTail, ChunksTokens, BindsTokens, GoodChunks, AllBound,
      ApplyAll, IsClause, EndsTypes;
    StatementSteps(st, ts, rest, clause, tail);
  }

  lemma {:induction false} BindsBegin(bs: seq<Bind>, tail: seq<Token>)
    requires bs != []
    ensures BindsTokens(bs, tail) != [] && BindsTokens(bs, tail)[0].Val?
  {
  }

  lemma {:induction false} StatementSteps(st: Statement, ts: seq<Token>, rest: seq<Token>, clause: seq<Token>,
      tail: seq<Token>)
    requires rest != [] && rest[0] == Word(st.mnemonic)
    requires st.binds == [] ==> ts == rest && AllBound(st.binds) == []
    requires st.binds != [] ==> ts != [] && ts[0].Val? && ParseLhs(ts, []) == Done(AllBound(st.binds), rest)
    requires ParseArgs(rest[1..], NOTHING) == Done(ApplyAll(NOTHING, st.chunks), clause)
    requires ParseClause(clause) == Done(if st.clause.Colon? then st.clause.types else [], tail)
    requires Stripped(st.mnemonic) == if "handshake." <= st.mnemonic then st.mnemonic[10..] else st.mnemonic
    ensures ParseStmt(ts) == Done(Means(st), tail)
  {
    hide ParseLhs, ParseArgs, ParseClause, Stripped, AllBound, ApplyAll;
  }

  lemma {:induction false} ColonThen(ts: seq<Token>, n: nat)
    requires Starts(ts, Punct(':')) && n < |ts|
    ensures ts == [Punct(':')] + (ts[1..][..n] + ts[1..][n..])
  {
  }

  lemma {:induction false} ReadIsClause(ts: seq<Token>) returns (c: ClauseText)
    requires ParseClause(ts).Done? && ArgsEnd(ts)
    ensures var r := ParseClause(ts);
            && ts == ClauseTail(c, r.rest) && r.value == (if c.Colon? then c.types else [])
            && if c.Colon? then IsClause(c.types) else r.rest == [] || r.rest[0] == Punct('}')
  {
    if Starts(ts, Punct(':')) {
      var after := ts[1..];
      var n := ClauseLength(after).n;
      ClauseIs(after, n);
      hide IsClause, ClauseLength;
      c := Colon(after[..n]);
      ColonThen(ts, n);
    } else {
      c := NoClause;
    }
  }

  /** Whatever is read as a statement is one, and means what was read. */
  lemma {:induction false} ReadIsStatement(ts: seq<Token>) returns (st: Statement)
    requires ParseStmt(ts).Done?
    ensures var r := ParseStmt(ts);
            GoodStatement(st, r.rest) && ts == StatementTokens(st, r.rest) && r.value == Means(st)
  {
    hide ParseLhs, ParseArgs, ParseClause, Stripped, ClauseTail, ChunksTokens, GoodChunks, AllBound, ApplyAll,
      IsClause, EndsTypes, BindsTokens;
    NoBinds(ts);
    var binds: seq<Bind> := [];
    if ts[0].Val? {
      binds := ReadIsBinds(ts, []);
      assert [] + AllBound(binds) == AllBound(binds);
    }
    var rest := if ts[0].Val? then ParseLhs(ts, []).rest else ts;
    var chunks := ReadIsChunks(rest[1..], NOTHING);
    var clause := ReadIsClause(ParseArgs(rest[1..], NOTHING).rest);
    Prefixed(rest[0].text);
    assert rest == [rest[0]] + rest[1..];
    st := Statement(binds, rest[0].text, chunks, clause);
  }
}
