/**
 The reader as it runs, a class with a position in its token stream (`_Parser` in bdc/hs/parse.py). Each method
 is proved against the function that says what it reads from the tokens ahead and where it stops.
 */
module Parsing {
  import opened Escapes
  import opened Attributes
  import opened TypeClauses
  import opened Statements
  import opened Functions
  import R = Resolution

  lemma {:induction false} Beyond(ts: seq<Token>, i: nat, j: nat)
    requires i <= j <= |ts|
    ensures ts[i..][j - i..] == ts[j..] && ts[i..][..j - i] == ts[i..j]
  {
  }

  /** A value read, or the error that ends the reading. */
  datatype Read<+T> = Error | Got(value: T)

  /** `p` says to return `r`, and to stop before `rest`. */
  ghost predicate Agrees<T(!new)>(p: Parsed<T>, r: Read<T>, rest: seq<Token>) {
    match r
    case Error => p.Fail?
    case Got(v) => p == Done(v, rest)
  }

  /** `n` says whether something is read, and how many tokens it takes to get from `was` to `now`. */
  ghost predicate Took(n: Count, r: Read<bool>, was: nat, now: nat) {
    match r
    case Error => n.Bad?
    case Got(some) => n.Of? && now == was + n.n && (some <==> n.n > 0)
  }

  lemma {:induction false} ScanNothing(stack: seq<char>)
    requires stack != []
    ensures Scan([], stack) == Bad
  {
  }

  /** One token more of a group. */
  lemma {:induction false} ScanNext(ts: seq<Token>, stack: seq<char>)
    requires ts != [] && stack != []
    ensures IsOpen(ts[0]) ==> Scan(ts, stack) == Plus(Scan(ts[1..], stack + [ts[0].c]), 1)
    ensures !IsOpen(ts[0]) && !IsClose(ts[0]) ==> Scan(ts, stack) == Plus(Scan(ts[1..], stack), 1)
    ensures !IsOpen(ts[0]) && IsClose(ts[0]) ==>
              var outer := stack[..|stack| - 1];
              Scan(ts, stack) ==
                if ts[0].c != Closer(stack[|stack| - 1]) then Bad
                else if outer == [] then Of(1)
                else Plus(Scan(ts[1..], outer), 1)
  {
  }

  /** What the types already read leave to be read: a comma, and more types. */
  ghost function MoreTypes(ts: seq<Token>): Count {
    if !Starts(ts, Punct(',')) then Of(0)
    else
      var m := TypesLength(ts[1..]);
      if m.Bad? || m.n == 0 then Bad else Of(1 + m.n)
  }

  lemma {:induction false} TypesFrom(ts: seq<Token>)
    ensures var n := AtomLength(ts);
            TypesLength(ts) == if n.Bad? || n.n == 0 then n else Plus(MoreTypes(ts[n.n..]), n.n)
  {
    hide AtomLength;
    var n := AtomLength(ts);
    if n.Of? && n.n > 0 && Starts(ts[n.n..], Punct(',')) {
      assert ts[n.n..][1..] == ts[n.n + 1..];
    }
  }

  lemma {:induction false} CommaThenTypes(ts: seq<Token>)
    requires Starts(ts, Punct(','))
    ensures var m := TypesLength(ts[1..]); MoreTypes(ts) == if m.Bad? || m.n == 0 then Bad else Of(1 + m.n)
  {
  }

  lemma {:induction false} NoMoreTypes(ts: seq<Token>)
    requires !Starts(ts, Punct(','))
    ensures MoreTypes(ts) == Of(0)
  {
  }

  /** What follows the first types of a clause. */
  ghost function MarkedTypes(ts: seq<Token>): Count {
    var m := Marked(ts, Word("to"));
    if m.Bad? then Bad else Plus(Marked(ts[m.n..], Arrow), m.n)
  }

  lemma {:induction false} ClauseFrom(ts: seq<Token>)
    ensures var n := TypesLength(ts); ClauseLength(ts) == if n.Bad? then Bad else Plus(MarkedTypes(ts[n.n..]), n.n)
  {
    hide TypesLength, Marked;
    var n := TypesLength(ts);
    if n.Of? {
      var m := Marked(ts[n.n..], Word("to"));
      if m.Of? {
        assert ts[n.n..][m.n..] == ts[n.n + m.n..];
      }
    }
  }

  /** The rest of a left-hand side after the bindings of `acc`. */
  ghost function MoreBindings(ts: seq<Token>, acc: seq<Ref>): Parsed<seq<Ref>> {
    if Starts(ts, Punct(',')) then ParseLhs(ts[1..], acc)
    else if Starts(ts, Punct('=')) then Done(acc, ts[1..])
    else Fail
  }

  /** How the operand segment `ts` starts with is wrapped, and what it holds. */
  ghost function SegmentOf(ts: seq<Token>): (r: Parsed<(Wrap, seq<Item>)>)
    requires ts != []
    ensures r.Done? ==> |r.rest| < |ts|
  {
    if ts[0].Val? then Wrapped(Bare,
        match ParseRef(ts) case Fail => Fail case Done(x, rest) => Done([Operand(x, [])], rest))
    else if ts[0] == Punct('[') then Wrapped(Square, ParseSquare(ts[1..], []))
    else if ts[0] == Punct('(') then Wrapped(Round, ParseRound(ts[1..], []))
    else if ts[0].Sym? || ts[0].Word? then Done((Bare, [Literal(ts[0])]), ts[1..])
    else Fail
  }

  ghost function Wrapped(wrap: Wrap, items: Parsed<seq<Item>>): Parsed<(Wrap, seq<Item>)> {
    match items
    case Fail => Fail
    case Done(xs, rest) => Done((wrap, xs), rest)
  }

  lemma {:induction false} NextIsDict(ts: seq<Token>, b: Body)
    requires Starts(ts, Punct('{'))
    ensures ParseArgs(ts, b)
            == (var d := ParseDict(ts);
                if b.seen || d.Fail? then Fail
                else ParseArgs(d.rest, b.(attrs := Update(b.attrs, d.value), seen := true, first := b.first
                  || b.args == [])))
  {
    hide ParseDict;
  }

  lemma {:induction false} NextIsInline(ts: seq<Token>, b: Body)
    requires |ts| > 1 && ts[0].Word? && ts[1] == Punct('=')
    ensures ParseArgs(ts, b)
            == (var v := ParseAttr(ts[2..], false);
                if v.Fail? then Fail
                else
                  var (comma, rest) := EatComma(v.rest);
                  ParseArgs(rest, b.(args := b.args + [Inline(ts[0].text, v.value, comma)],
                                     attrs := Assign(b.attrs, ts[0].text, v.value))))
  {
    hide ParseAttr;
  }

  lemma {:induction false} NextIsOperand(ts: seq<Token>, b: Body)
    requires ts != [] && ts[0] !in {Punct('}'), Punct(':'), Punct('{')}
    requires !(|ts| > 1 && ts[0].Word? && ts[1] == Punct('='))
    ensures ParseArgs(ts, b)
            == (var s := SegmentOf(ts);
                if s.Fail? then Fail
                else ParseArgs(EatComma(s.rest).1, Push(b, s.value.0, s.value.1, EatComma(s.rest).0)))
  {
    hide ParseRef, ParseSquare, ParseRound, ParseDict, ParseAttr;
  }

  lemma {:induction false} BlockEnds(ts: seq<Token>, path: seq<nat>, next: nat, acc: seq<Located>)
    requires Starts(ts, Punct('}'))
    ensures ParseItems(ts, path, next, acc, true) == Done(acc, ts)
  {
    hide ParseFunc, ParseAttributes;
  }

  class Parser {
    const toks: seq<Token>
    var pos: nat
    var funcs: seq<Located>

    ghost predicate Valid()
      reads this
    {
      pos <= |toks|
    }

    /** The tokens ahead. */
    ghost function Rest(): seq<Token>
      reads this
      requires Valid()
    {
      toks[pos..]
    }

    constructor (toks: seq<Token>)
      ensures Valid() && this.toks == toks && Rest() == toks && funcs == []
    {
      this.toks := toks;
      pos := 0;
      funcs := [];
    }

    /** Whether the next token is `t`. */
    method At(t: Token) returns (b: bool)
      requires Valid()
      ensures b == Starts(Rest(), t)
    {
      b := pos < |toks| && toks[pos] == t;
    }

    /** Step over the next token if it is `t`. */
    method Accept(t: Token) returns (b: bool)
      requires Valid()
      modifies this`pos
      ensures Valid() && b == Starts(old(Rest()), t)
      ensures pos == old(pos) + if b then 1 else 0
      ensures Rest() == old(Rest())[if b then 1 else 0..]
    {
      b := pos < |toks| && toks[pos] == t;
      if b {
        pos := pos + 1;
      }
    }

    /** A bracketed group, tracking which brackets are open. */
    method ConsumeBalanced() returns (r: Read<seq<Token>>)
      requires Valid()
      modifies this`pos
      ensures Valid()
      ensures match r
              case Error => GroupLength(old(Rest())).Bad?
              case Got(g) => pos == old(pos) + |g| && GroupLength(old(Rest())) == Of(|g|) && g == toks[old(pos)..pos]
    {
      hide Scan;
      if pos == |toks| || !IsOpen(toks[pos]) {
        return Error;
      }
      var start := pos;
      ghost var inside := toks[pos + 1..];
      var stack := [toks[pos].c];
      pos := pos + 1;
      while stack != []
        invariant start < pos <= |toks|
        invariant Scan(inside, [toks[start].c])
                  == if stack == [] then Of(pos - start - 1) else Plus(Scan(toks[pos..], stack), pos - start - 1)
        decreases |toks| - pos
      {
        if pos == |toks| {
          ScanNothing(stack);
          return Error;
        }
        var tok := toks[pos];
        assert toks[pos..][1..] == toks[pos + 1..];
        ScanNext(toks[pos..], stack);
        pos := pos + 1;
        if IsOpen(tok) {
          stack := stack + [tok.c];
        } else if IsClose(tok) {
          if tok.c != Closer(stack[|stack| - 1]) {
            return Error;
          }
          stack := stack[..|stack| - 1];
        }
      }
      assert toks[start..][1..] == inside;
      r := Got(toks[start..pos]);
    }

    // ---- attributes ---------------------------------------------------------------

    method ParseAttrValue(typed: bool) returns (r: Read<Attr>)
      requires Valid()
      modifies this`pos
      ensures Valid() && Agrees(ParseAttr(old(Rest()), typed), r, Rest())
      decreases |toks| - pos, 1
    {
      if pos == |toks| {
        return Error;
      }
      var tok := toks[pos];
      ghost var ahead := Rest();
      assert ahead[1..] == toks[pos + 1..];
      if tok == Punct('{') {
        hide ParseEntries;
        var d := ParseAttrDict();
        return if d.Error? then Error else Got(DictVal(d.value));
      }
      pos := pos + 1;
      match tok
      case Str(t) => r := Got(StrVal(Unescape(t)));
      case Word(w) =>
        r := Got(if w == "true" then BoolVal(true) else if w == "false" then BoolVal(false) else WordVal(w));
      case Int(n) => r := TypeSuffix(IntNum(n), typed);
      case Hex(n) => r := TypeSuffix(IntNum(n), typed);
      case Float(x) => r := TypeSuffix(FloatNum(x), typed);
      case Sym(s) => r := Got(StrVal("@" + s));
      case Hash(_) => r := Opaque(tok);
      case Punct(c) =>
        r := Error;
        if c == '[' {
          hide ParseList;
          var items := AttrArray();
          r := if items.Error? then Error else Got(ListVal(items.value));
        }
      case _ => r := Error;
    }

    /** A number's type, if there may be one and it follows. */
    method TypeSuffix(num: Number, typed: bool) returns (r: Read<Attr>)
      requires Valid()
      modifies this`pos
      ensures Valid() && Agrees(Typed(num, old(Rest()), typed), r, Rest())
    {
      if !typed {
        return Got(NumVal(num));
      }
      var colon := Accept(Punct(':'));
      if !colon {
        return Got(NumVal(num));
      }
      if pos == |toks| || !toks[pos].Word? {
        return Error;
      }
      pos := pos + 1;
      r := Got(TypedVal(num, toks[pos - 1].text));
    }

    /** What follows a `#name`: a group kept as it is, or nothing. */
    method Opaque(name: Token) returns (r: Read<Attr>)
      requires Valid() && pos > 0 && toks[pos - 1] == name && name.Hash?
      modifies this`pos
      ensures Valid() && Agrees(ParseAttr(toks[old(pos) - 1..], true), r, Rest())
      ensures Valid() && Agrees(ParseAttr(toks[old(pos) - 1..], false), r, Rest())
    {
      ghost var all := toks[pos - 1..];
      assert all[1..] == toks[pos..];
      if pos == |toks| || !IsOpen(toks[pos]) {
        return Got(OpaqueVal([name]));
      }
      var start := pos;
      var group := ConsumeBalanced();
      if group.Error? {
        return Error;
      }
      assert all[..pos - start + 1] == [name] + group.value;
      assert all[pos - start + 1..] == Rest();
      r := Got(OpaqueVal([name] + group.value));
    }

    /** The items of an array, its bracket already read. */
    method AttrArray() returns (r: Read<seq<Attr>>)
      requires Valid()
      modifies this`pos
      ensures Valid() && Agrees(ParseList(old(Rest()), []), r, Rest())
      decreases |toks| - pos, 2
    {
      hide ParseAttr;
      ghost var all := Rest();
      var items := [];
      var closing := At(Punct(']'));
      while !closing
        invariant Valid() && old(pos) <= pos && closing == Starts(Rest(), Punct(']'))
        invariant ParseList(all, []) == ParseList(Rest(), items)
        decreases |toks| - pos
      {
        var v := ParseAttrValue(true);
        if v.Error? {
          return Error;
        }
        items := items + [v.value];
        var comma := Accept(Punct(','));
        closing := At(Punct(']'));
        if !comma && !closing {
          return Error;
        }
      }
      pos := pos + 1;
      r := Got(items);
    }

    method ParseAttrDict() returns (r: Read<Dict>)
      requires Valid()
      modifies this`pos
      ensures Valid() && Agrees(ParseDict(old(Rest())), r, Rest())
      decreases |toks| - pos, 0
    {
      hide ParseAttr;
      var open := Accept(Punct('{'));
      if !open {
        return Error;
      }
      ghost var all := Rest();
      var attrs := [];
      var closing := At(Punct('}'));
      while !closing
        invariant Valid() && old(pos) < pos && closing == Starts(Rest(), Punct('}'))
        invariant ParseEntries(all, []) == ParseEntries(Rest(), attrs)
        decreases |toks| - pos
      {
        var key := AttrKey();
        if key.Error? {
          return Error;
        }
        var v := ParseAttrValue(true);
        if v.Error? {
          return Error;
        }
        attrs := Assign(attrs, key.value, v.value);
        var comma := Accept(Punct(','));
        closing := At(Punct('}'));
        if !comma && !closing {
          return Error;
        }
      }
      pos := pos + 1;
      r := Got(attrs);
    }

    /** `key =`. */
    method AttrKey() returns (r: Read<string>)
      requires Valid()
      modifies this`pos
      ensures Valid()
      ensures match r
              case Error => var ts := old(Rest()); |ts| < 2 || KeyOf(ts[0]).Fail? || ts[1] != Punct('=')
              case Got(key) => var ts := old(Rest());
                |ts| >= 2 && KeyOf(ts[0]).Done? && KeyOf(ts[0]).value == key && ts[1] == Punct('=')
                  && Rest() == ts[2..] && pos == old(pos) + 2
    {
      if pos == |toks| || KeyOf(toks[pos]).Fail? {
        return Error;
      }
      var key := KeyOf(toks[pos]).value;
      pos := pos + 1;
      var equals := Accept(Punct('='));
      r := if equals then Got(key) else Error;
    }

    // ---- types --------------------------------------------------------------------

    method TryTypeAtom() returns (r: Read<bool>)
      requires Valid()
      modifies this`pos
      ensures Valid() && Took(AtomLength(old(Rest())), r, old(pos), pos)
    {
      if pos == |toks| {
        return Got(false);
      }
      var tok := toks[pos];
      ghost var all := Rest();
      assert all[1..] == toks[pos + 1..];
      if tok in {Punct('<'), Punct('('), Punct('[')} {
        var group := ConsumeBalanced();
        return if group.Error? then Error else Got(true);
      }
      var angled := pos + 1 < |toks| && toks[pos + 1] == Punct('<');
      if (tok.Bang? || tok.Word?) && angled {
        pos := pos + 1;
        var group := ConsumeBalanced();
        return if group.Error? then Error else Got(true);
      }
      if tok.Bang? || tok == Word("_") {
        pos := pos + 1;
        return Got(true);
      }
      r := Got(false);
    }

    method TryTypeList() returns (r: Read<bool>)
      requires Valid()
      modifies this`pos
      ensures Valid() && Took(TypesLength(old(Rest())), r, old(pos), pos)
    {
      hide AtomLength, TypesLength, MoreTypes;
      ghost var all := Rest();
      TypesFrom(all);
      r := TryTypeAtom();
      if r.Error? || !r.value {
        return;
      }
      assert all[pos - old(pos)..] == Rest();
      var comma := At(Punct(','));
      while comma
        invariant Valid() && old(pos) < pos && comma == Starts(Rest(), Punct(','))
        invariant TypesLength(all) == Plus(MoreTypes(Rest()), pos - old(pos))
        decreases |toks| - pos
      {
        var ok := AnotherType();
        if !ok {
          return Error;
        }
        comma := At(Punct(','));
      }
      NoMoreTypes(Rest());
    }

    /** A comma, and the type it calls for. */
    method AnotherType() returns (ok: bool)
      requires Valid() && Starts(Rest(), Punct(','))
      modifies this`pos
      ensures Valid() && (if ok then pos > old(pos) && MoreTypes(old(Rest())) == Plus(MoreTypes(Rest()), pos - old(pos))
                          else MoreTypes(old(Rest())).Bad?)
    {
      hide AtomLength, TypesLength, MoreTypes;
      ghost var here := toks[pos + 1..];
      CommaThenTypes(Rest());
      TypesFrom(here);
      pos := pos + 1;
      var another := TryTypeAtom();
      ok := another.Got? && another.value;
      if ok {
        assert here[pos - old(pos) - 1..] == Rest();
      }
    }

    /** Types after `mark`, if it is there. */
    method TryMarked(mark: Token) returns (ok: bool)
      requires Valid()
      modifies this`pos
      ensures Valid() && ok == Marked(old(Rest()), mark).Of?
      ensures ok ==> pos >= old(pos) && Marked(old(Rest()), mark) == Of(pos - old(pos))
    {
      ok := Accept(mark);
      if !ok {
        return true;
      }
      var types := TryTypeList();
      ok := types.Got?;
    }

    /** `types [to types] [-> types]`. */
    method SkipClause() returns (ok: bool)
      requires Valid()
      modifies this`pos
      ensures Valid() && ok == ClauseLength(old(Rest())).Of?
      ensures ok ==> pos >= old(pos) && ClauseLength(old(Rest())) == Of(pos - old(pos))
    {
      hide TypesLength, ClauseLength;
      var start := pos;
      ClauseFrom(toks[start..]);
      var types := TryTypeList();
      if types.Error? {
        return false;
      }
      Beyond(toks, start, pos);
      ok := SkipMarked();
    }

    /** `[to types] [-> types]`. */
    method SkipMarked() returns (ok: bool)
      requires Valid()
      modifies this`pos
      ensures Valid() && ok == MarkedTypes(old(Rest())).Of?
      ensures ok ==> pos >= old(pos) && MarkedTypes(old(Rest())) == Of(pos - old(pos))
    {
      hide Marked;
      var start := pos;
      ok := TryMarked(Word("to"));
      if ok {
        Beyond(toks, start, pos);
        ok := TryMarked(Arrow);
      }
    }

    /** The clause after a colon, kept as it is; empty if there is none. */
    method ParseTypeClause() returns (r: Read<seq<Token>>)
      requires Valid()
      modifies this`pos
      ensures Valid() && Agrees(ParseClause(old(Rest())), r, Rest())
    {
      hide ClauseLength;
      var colon := Accept(Punct(':'));
      if !colon {
        return Got([]);
      }
      var start := pos;
      ghost var all := Rest();
      var ok := SkipClause();
      if !ok {
        return Error;
      }
      assert all[..pos - start] == toks[start..pos] && all[pos - start..] == Rest();
      r := Got(toks[start..pos]);
    }

    // ---- operations ---------------------------------------------------------------

    method ParseOperandRef() returns (r: Read<Ref>)
      requires Valid()
      modifies this`pos
      ensures Valid() && Agrees(ParseRef(old(Rest())), r, Rest())
    {
      if pos == |toks| || !toks[pos].Val? {
        return Error;
      }
      var base := toks[pos].name;
      ghost var all := Rest();
      pos := pos + 1;
      assert all[1..] == Rest();
      var hash := Accept(Punct('#'));
      if !hash {
        return Got(Ref(base, Whole));
      }
      if pos == |toks| || !toks[pos].Int? {
        return Error;
      }
      pos := pos + 1;
      assert all[3..] == Rest();
      r := Got(Ref(base, Part(toks[pos - 1].value)));
    }

    /** One binding left of `=`: a name, or a group with its size. */
    method ParseLhsName() returns (r: Read<seq<Ref>>)
      requires Valid()
      modifies this`pos
      ensures Valid() && Agrees(ParseBinding(old(Rest())), r, Rest())
    {
      if pos == |toks| || !toks[pos].Val? {
        return Error;
      }
      var base := toks[pos].name;
      ghost var all := Rest();
      pos := pos + 1;
      assert all[1..] == Rest();
      var colon := Accept(Punct(':'));
      if !colon {
        return Got([Ref(base, Whole)]);
      }
      if pos == |toks| || !toks[pos].Int? {
        return Error;
      }
      var count := toks[pos].value;
      pos := pos + 1;
      assert all[3..] == Rest();
      r := Got(Group(base, if count < 0 then 0 else count));
    }

    /** Bindings up to the `=`. */
    method ParseResultNames() returns (r: Read<seq<Ref>>)
      requires Valid()
      modifies this`pos
      ensures Valid() && Agrees(ParseLhs(old(Rest()), []), r, Rest())
    {
      hide ParseBinding;
      ghost var all := Rest();
      var group := ParseLhsName();
      if group.Error? {
        return Error;
      }
      var results := group.value;
      assert [] + results == results;
      var comma := Accept(Punct(','));
      while comma
        invariant Valid() && old(pos) < pos
        invariant ParseLhs(all, []) == if comma then ParseLhs(Rest(), results) else MoreBindings(Rest(), results)
        invariant !comma ==> !Starts(Rest(), Punct(','))
        decreases |toks| - pos
      {
        group := ParseLhsName();
        if group.Error? {
          return Error;
        }
        results := results + group.value;
        comma := Accept(Punct(','));
      }
      var equals := Accept(Punct('='));
      r := if equals then Got(results) else Error;
    }

    /** A value in brackets, perhaps with its type spelled out. */
    method ParseGroupItem() returns (r: Read<Item>)
      requires Valid()
      modifies this`pos
      ensures Valid() && Agrees(ParseItem(old(Rest())), r, Rest())
    {
      hide ParseRef, AtomLength;
      if pos == |toks| {
        return Error;
      }
      if toks[pos].Int? || toks[pos].Word? {
        pos := pos + 1;
        return Got(Literal(toks[pos - 1]));
      }
      var ref := ParseOperandRef();
      if ref.Error? {
        return Error;
      }
      var colon := Accept(Punct(':'));
      if !colon {
        return Got(Operand(ref.value, []));
      }
      var start := pos;
      ghost var all := Rest();
      var atom := TryTypeAtom();
      if atom.Error? || !atom.value {
        return Error;
      }
      assert all[..pos - start] == toks[start..pos] && all[pos - start..] == Rest();
      r := Got(Operand(ref.value, toks[start..pos]));
    }

    /** The items of `[...]`, its bracket already read. */
    method ParseBracketGroup() returns (r: Read<seq<Item>>)
      requires Valid()
      modifies this`pos
      ensures Valid() && Agrees(ParseSquare(old(Rest()), []), r, Rest())
    {
      hide ParseItem;
      ghost var all := Rest();
      var items := [];
      var closing := At(Punct(']'));
      while !closing
        invariant Valid() && closing == Starts(Rest(), Punct(']'))
        invariant ParseSquare(all, []) == ParseSquare(Rest(), items)
        decreases |toks| - pos
      {
        var item := ParseGroupItem();
        if item.Error? {
          return Error;
        }
        items := items + [item.value];
        var comma := Accept(Punct(','));
        closing := At(Punct(']'));
        if !comma && !closing {
          return Error;
        }
      }
      pos := pos + 1;
      r := Got(items);
    }

    /** The values of `(...)`, its bracket already read; here a comma is not called for. */
    method ParseParenGroup() returns (r: Read<seq<Item>>)
      requires Valid()
      modifies this`pos
      ensures Valid() && Agrees(ParseRound(old(Rest()), []), r, Rest())
    {
      hide ParseRef;
      ghost var all := Rest();
      var items := [];
      var closing := At(Punct(')'));
      while !closing
        invariant Valid() && closing == Starts(Rest(), Punct(')'))
        invariant ParseRound(all, []) == ParseRound(Rest(), items)
        decreases |toks| - pos
      {
        var ref := ParseOperandRef();
        if ref.Error? {
          return Error;
        }
        items := items + [Operand(ref.value, [])];
        var comma := Accept(Punct(','));
        closing := At(Punct(')'));
      }
      pos := pos + 1;
      r := Got(items);
    }

    /** One operand segment, inline attribute or dictionary more. */
    method ParseOpItem(b: Body) returns (r: Read<Body>)
      requires Valid() && Rest() != [] && Rest()[0] !in {Punct('}'), Punct(':')}
      modifies this`pos
      ensures Valid() && (r.Got? ==> pos > old(pos))
      ensures ParseArgs(old(Rest()), b) == if r.Error? then Fail else ParseArgs(Rest(), r.value)
    {
      hide ParseArgs, ParseDict;
      ghost var all := Rest();
      assert all[1..] == toks[pos + 1..];
      var tok := toks[pos];
      if tok == Punct('{') {
        NextIsDict(all, b);
        if b.seen {
          return Error;
        }
        var more := ParseAttrDict();
        return if more.Error? then Error
               else Got(b.(attrs := Update(b.attrs, more.value), seen := true, first := b.first || b.args == []));
      }
      if tok.Word? && pos + 1 < |toks| && toks[pos + 1] == Punct('=') {
        r := ParseInline(b);
        return;
      }
      NextIsOperand(all, b);
      r := ParseSegment(b);
    }

    /** `key = value` among the operands. */
    method ParseInline(b: Body) returns (r: Read<Body>)
      requires Valid() && pos + 1 < |toks| && toks[pos].Word? && toks[pos + 1] == Punct('=')
      modifies this`pos
      ensures Valid() && (r.Got? ==> pos > old(pos))
      ensures ParseArgs(old(Rest()), b) == if r.Error? then Fail else ParseArgs(Rest(), r.value)
    {
      hide ParseArgs, ParseAttr;
      NextIsInline(Rest(), b);
      var key := toks[pos].text;
      assert Rest()[2..] == toks[pos + 2..];
      pos := pos + 2;
      var v := ParseAttrValue(false);
      if v.Error? {
        return Error;
      }
      ghost var after := Rest();
      var comma := Accept(Punct(','));
      assert EatComma(after) == (comma, Rest());
      r := Got(b.(args := b.args + [Inline(key, v.value, comma)], attrs := Assign(b.attrs, key, v.value)));
    }

    /** An operand on its own, or a bracketed group, and the comma after it. */
    method ParseSegment(b: Body) returns (r: Read<Body>)
      requires Valid() && Rest() != []
      modifies this`pos
      ensures Valid() && (r.Got? ==> pos > old(pos))
      ensures var s := SegmentOf(old(Rest()));
              match r
              case Error => s.Fail?
              case Got(more) =>
                && s.Done? && more == Push(b, s.value.0, s.value.1, EatComma(s.rest).0)
                && Rest() == EatComma(s.rest).1
    {
      hide ParseRef, ParseSquare, ParseRound;
      ghost var all := Rest();
      assert all[1..] == toks[pos + 1..];
      var tok := toks[pos];
      var wrap, items := Bare, Error;
      if tok.Val? {
        var ref := ParseOperandRef();
        items := if ref.Error? then Error else Got([Operand(ref.value, [])]);
      } else {
        pos := pos + 1;
        if tok == Punct('[') {
          wrap := Square;
          items := ParseBracketGroup();
        } else if tok == Punct('(') {
          wrap := Round;
          items := ParseParenGroup();
        } else if tok.Sym? || tok.Word? {
          items := Got([Literal(tok)]);
        }
      }
      if items.Error? {
        return Error;
      }
      var comma := Accept(Punct(','));
      r := Got(Push(b, wrap, items.value, comma));
    }

    /** Everything between the mnemonic and the type clause. */
    method ParseOpItems() returns (r: Read<Body>)
      requires Valid()
      modifies this`pos
      ensures Valid() && Agrees(ParseArgs(old(Rest()), NOTHING), r, Rest())
    {
      ghost var all := Rest();
      var body := NOTHING;
      while pos < |toks| && toks[pos] !in {Punct('}'), Punct(':')}
        invariant Valid()
        invariant ParseArgs(all, NOTHING) == ParseArgs(Rest(), body)
        decreases |toks| - pos
      {
        hide ParseArgs;
        var more := ParseOpItem(body);
        if more.Error? {
          return Error;
        }
        body := more.value;
      }
      r := Got(body);
    }

    method ParseOp() returns (r: Read<Stmt>)
      requires Valid()
      modifies this`pos
      ensures Valid() && Agrees(ParseStmt(old(Rest())), r, Rest())
    {
      hide ParseLhs, ParseArgs, ParseClause, Stripped;
      if pos == |toks| {
        return Error;
      }
      ghost var all := Rest();
      var results := Got([]);
      if toks[pos].Val? {
        results := ParseResultNames();
      }
      if results.Error? || pos == |toks| || !toks[pos].Word? {
        return Error;
      }
      var op := Stripped(toks[pos].text);
      assert Rest()[1..] == toks[pos + 1..];
      pos := pos + 1;
      var body := ParseOpItems();
      if body.Error? {
        return Error;
      }
      var clause := ParseTypeClause();
      r := if clause.Error? then Error
           else Got(Stmt(op, body.value.args, results.value, body.value.attrs, body.value.first, clause.value));
    }

    // ---- functions ----------------------------------------------------------------

    /** `memref` and its shape in angle brackets, kept as it is. */
    method ParseMemref() returns (r: Read<PortType>)
      requires Valid() && pos < |toks| && toks[pos] == Word("memref")
      modifies this`pos
      ensures Valid() && Agrees(ParseType(old(Rest())), r, Rest())
    {
      ghost var all := Rest();
      var start := pos + 1;
      pos := pos + 1;
      assert all[1..] == Rest();
      var open := At(Punct('<'));
      if !open {
        return Error;
      }
      var shape := ConsumeBalanced();
      if shape.Error? {
        return Error;
      }
      assert all[1..][..pos - start] == toks[start..pos] && all[1..][pos - start..] == Rest();
      r := Got(Memref(shape.value));
    }

    method ParsePortType() returns (r: Read<PortType>)
      requires Valid()
      modifies this`pos
      ensures Valid() && Agrees(ParseType(old(Rest())), r, Rest())
    {
      ghost var all := Rest();
      if pos == |toks| {
        return Error;
      }
      var tok := toks[pos];
      assert all[1..] == toks[pos + 1..];
      if tok == Word("memref") {
        r := ParseMemref();
        return;
      }
      if tok !in {Bang("!handshake.channel"), Bang("!handshake.control")} {
        return Error;
      }
      pos := pos + 1;
      var open := Accept(Punct('<'));
      if !open {
        return Error;
      }
      var ty := Control;
      if tok == Bang("!handshake.channel") {
        if pos == |toks| || !toks[pos].Word? || !IsWidthWord(toks[pos].text) {
          return Error;
        }
        ty := Channel(toks[pos].text);
        assert all[3..] == toks[pos + 1..];
        pos := pos + 1;
      }
      var close := Accept(Punct('>'));
      r := if close then Got(ty) else Error;
    }

    /** A port, and the value it binds if its type comes after a name. */
    method ParseNamedPort() returns (r: Read<Port>)
      requires Valid()
      modifies this`pos
      ensures Valid() && Agrees(ParsePort(old(Rest())), r, Rest())
    {
      hide ParseType;
      ghost var all := Rest();
      var ssa := "";
      if pos < |toks| && toks[pos].Val? {
        ssa := toks[pos].name;
        assert all[1..] == toks[pos + 1..];
        pos := pos + 1;
        var colon := Accept(Punct(':'));
        if !colon {
          return Error;
        }
        assert all[2..] == Rest();
      }
      var ty := ParsePortType();
      r := if ty.Error? then Error else Got(Port(UNNAMED, ty.value, ssa));
    }

    /** Arguments, their bracket already read, and whether `...` is among them. */
    method ParseArguments() returns (r: Read<(seq<Port>, bool)>)
      requires Valid()
      modifies this`pos
      ensures Valid() && Agrees(ParseArgList(old(Rest()), [], false), r, Rest())
    {
      hide ParsePort;
      ghost var all := Rest();
      var args, ellipsis := [], false;
      var closing := At(Punct(')'));
      while !closing
        invariant Valid() && closing == Starts(Rest(), Punct(')'))
        invariant ParseArgList(all, [], false) == ParseArgList(Rest(), args, ellipsis)
        decreases |toks| - pos
      {
        var dots := Accept(Ellipsis);
        if dots {
          ellipsis := true;
        } else {
          var port := ParseNamedPort();
          if port.Error? {
            return Error;
          }
          args := args + [port.value];
        }
        var comma := Accept(Punct(','));
        closing := At(Punct(')'));
        if !comma && !closing {
          return Error;
        }
      }
      pos := pos + 1;
      r := Got((args, ellipsis));
    }

    /** Result types after the arrow, if it is there. */
    method ParseResultTypes() returns (r: Read<seq<Port>>)
      requires Valid()
      modifies this`pos
      ensures Valid() && Agrees(ParseResults(old(Rest())), r, Rest())
    {
      hide ParseType;
      ghost var all := Rest();
      var arrow := Accept(Arrow);
      if !arrow {
        return Got([]);
      }
      var open := Accept(Punct('('));
      if !open {
        var ty := ParsePortType();
        return if ty.Error? then Error else Got([Port(UNNAMED, ty.value, "")]);
      }
      assert all[2..] == Rest();
      var results := [];
      var closing := At(Punct(')'));
      while !closing
        invariant Valid() && closing == Starts(Rest(), Punct(')'))
        invariant ParseTypes(all[2..], []) == ParseTypes(Rest(), results)
        decreases |toks| - pos
      {
        var ty := ParsePortType();
        if ty.Error? {
          return Error;
        }
        results := results + [Port(UNNAMED, ty.value, "")];
        var comma := Accept(Punct(','));
        closing := At(Punct(')'));
        if !comma && !closing {
          return Error;
        }
      }
      pos := pos + 1;
      r := Got(results);
    }

    method AcceptAttributes() returns (r: Read<Dict>)
      requires Valid()
      modifies this`pos
      ensures Valid() && Agrees(ParseAttributes(old(Rest())), r, Rest())
    {
      hide ParseDict;
      var some := Accept(Word("attributes"));
      if !some {
        return Got([]);
      }
      r := ParseAttrDict();
    }

    /** A body, or none for a declaration. */
    method ParseBody() returns (r: Read<(bool, seq<Stmt>)>)
      requires Valid()
      modifies this`pos
      ensures Valid() && Agrees(ParseBlock(old(Rest())), r, Rest())
    {
      hide ParseStmt;
      var open := Accept(Punct('{'));
      if !open {
        return Got((true, []));
      }
      ghost var all := Rest();
      var nodes := [];
      var closing := At(Punct('}'));
      while !closing
        invariant Valid() && closing == Starts(Rest(), Punct('}'))
        invariant ParseStmts(all, []) == ParseStmts(Rest(), nodes)
        decreases |toks| - pos
      {
        var node := ParseOp();
        if node.Error? {
          return Error;
        }
        nodes := nodes + [node.value];
        closing := At(Punct('}'));
      }
      pos := pos + 1;
      r := Got((false, nodes));
    }

    method ParseFunction() returns (r: Read<Func>)
      requires Valid()
      modifies this`pos
      ensures Valid() && Agrees(ParseFunc(old(Rest())), r, Rest())
    {
      hide ParseSignature;
      ghost var all := Rest();
      var some := Accept(Word("handshake.func"));
      if !some {
        return Error;
      }
      var isPrivate := Accept(Word("private"));
      assert isPrivate ==> all[2..] == Rest();
      r := ParseHeadAndBody(isPrivate);
    }

    method ParseHeadAndBody(isPrivate: bool) returns (r: Read<Func>)
      requires Valid()
      modifies this`pos
      ensures Valid() && Agrees(ParseSignature(old(Rest()), isPrivate), r, Rest())
    {
      hide ParseArgList, ParseResults, ParseAttributes, ParseBlock, NamesFor, WithNames;
      ghost var all := Rest();
      if pos == |toks| || !toks[pos].Sym? {
        return Error;
      }
      var name := toks[pos].name;
      pos := pos + 1;
      var open := Accept(Punct('('));
      if !open {
        return Error;
      }
      assert all[2..] == Rest();
      var args := ParseArguments();
      if args.Error? {
        return Error;
      }
      var results := ParseResultTypes();
      if results.Error? {
        return Error;
      }
      var attrs := AcceptAttributes();
      if attrs.Error? {
        return Error;
      }
      var block := ParseBody();
      if block.Error? {
        return Error;
      }
      var f := Func(name, WithNames(args.value.0, NamesFor(attrs.value, "argNames", |args.value.0|)),
                    WithNames(results.value, NamesFor(attrs.value, "resNames", |results.value|)),
                    block.value.1, attrs.value, isPrivate, block.value.0, args.value.1);
      var ok, producer, consumers := R.Resolve(Bindings(f.args), f.body);
      r := if ok then Got(f) else Error;
    }

    // ---- files --------------------------------------------------------------------

    /** One function, or one module block with everything in it, onto `funcs`; `inside` some block or other. */
    method ParseTopItem(path: seq<nat>, counter: nat, ghost inside: bool) returns (ok: bool, next: nat)
      requires Valid() && (inside || Rest() != []) && !(inside && Starts(Rest(), Punct('}')))
      modifies this`pos, this`funcs
      ensures Valid() && (ok ==> pos > old(pos))
      ensures ParseItems(old(Rest()), path, counter, old(funcs), inside)
              == if ok then ParseItems(Rest(), path, next, funcs, inside) else Fail
      decreases |toks| - pos, 0
    {
      hide ParseFunc, ParseAttributes;
      ok, next := false, counter;
      ghost var all := Rest();
      var block := Accept(Word("module"));
      if !block {
        var f := ParseFunction();
        if f.Got? {
          funcs := funcs + [Located(f.value, path)];
          ok := true;
        }
        return;
      }
      var attrs := AcceptAttributes();
      if attrs.Error? {
        return;
      }
      var open := Accept(Punct('{'));
      if !open {
        return;
      }
      ok := ParseModuleBody(path + [counter]);
      next := counter + 1;
    }

    /** The items of a module block, its brace already read. */
    method ParseModuleBody(here: seq<nat>) returns (ok: bool)
      requires Valid()
      modifies this`pos, this`funcs
      ensures Valid()
      ensures var r := ParseItems(old(Rest()), here, 0, old(funcs), true);
              if ok then r.Done? && r.value == funcs && Starts(r.rest, Punct('}')) && Rest() == r.rest[1..]
                && pos > old(pos) else r.Fail?
      decreases |toks| - pos, 1
    {
      hide ParseItems;
      ghost var all := Rest();
      ghost var before := funcs;
      var inner := 0;
      var closing := At(Punct('}'));
      while !closing
        invariant Valid() && pos >= old(pos) && closing == Starts(Rest(), Punct('}'))
        invariant ParseItems(all, here, 0, before, true) == ParseItems(Rest(), here, inner, funcs, true)
        decreases |toks| - pos
      {
        ok, inner := ParseTopItem(here, inner, true);
        if !ok {
          return;
        }
        closing := At(Punct('}'));
      }
      BlockEnds(Rest(), here, inner, funcs);
      pos := pos + 1;
      ok := true;
    }

    /** Everything: the functions of a file, each with the module blocks it sits in. */
    method ParseFile() returns (ok: bool)
      requires Valid() && pos == 0 && funcs == []
      modifies this`pos, this`funcs
      ensures ParseModule(toks) == if ok then Done(funcs, []) else Fail
    {
      var counter := 0;
      assert Rest() == toks;
      while pos < |toks|
        invariant Valid()
        invariant ParseModule(toks) == ParseItems(Rest(), [], counter, funcs, false)
        decreases |toks| - pos
      {
        hide ParseItems;
        ok, counter := ParseTopItem([], counter, false);
        if !ok {
          return;
        }
      }
      ok := true;
    }
  }

  /**
   A file, printed and read back, is itself again, exactly unless a module was asked for around functions that
   had none.
   */
  method ReadBack(fs: seq<Located>, wrap: bool) returns (p: Parser, ok: bool)
    requires WellFormed(fs)
    ensures ok && p.funcs == fs <==> !(wrap && fs != [] && forall l | l in fs :: l.path == [])
  {
    hide WellFormed;
    p := new Parser(PrintModule(fs, wrap));
    ok := p.ParseFile();
    FileRoundTripIff(fs, wrap);
  }
}
