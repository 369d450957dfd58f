/**
 Tokens, balanced groups and attribute values: printed, and read back
 (`_parse_attr_value`, `parse_attr_dict`, `consume_balanced`, `_format_attr_value`,
     `_format_attr_dict` in bdc/hs/parse.py).
 */
module Attributes {
  import opened Escapes

  /** A lexed token; `Str` holds the text between the quotes, still escaped. */
  datatype Token = Word(text: string) | Val(name: string) | Sym(name: string) | Str(text: string)
                 | Int(value: int) | Hex(value: int) | Float(x: Decimal)
                 | Hash(text: string) | Bang(text: string) | Punct(c: char) | Arrow | Ellipsis

  /**
   A floating-point number by its shortest decimal digits, without trailing zeros, and the exponent of the first
   one; or an infinite one, for text too large for any other.
   */
  datatype Decimal = Decimal(negative: bool, digits: nat, exponent: int) | Infinite(negative: bool)

  datatype Number = IntNum(n: int) | FloatNum(x: Decimal)

  /** What a reader makes of the tokens before it: something, and the tokens after it. */
  datatype Parsed<+T> = Fail | Done(value: T, rest: seq<Token>)

  predicate Starts(ts: seq<Token>, t: Token) {
    ts != [] && ts[0] == t
  }

  // ---- balanced groups ------------------------------------------------------------

  predicate IsOpen(t: Token) {
    t.Punct? && t.c in {'(', '[', '{', '<'}
  }

  predicate IsClose(t: Token) {
    t.Punct? && t.c in {')', ']', '}', '>'}
  }

  function Closer(c: char): char {
    if c == '(' then ')' else if c == '[' then ']' else if c == '{' then '}' else '>'
  }

  /** A number of tokens, or none because the text is malformed. */
  datatype Count = Bad | Of(n: nat)

  /**
   How many of `ts` it takes to close every bracket of `stack`, innermost last; nothing on a mismatch or at the
   end.
   */
  function Scan(ts: seq<Token>, stack: seq<char>): (n: Count)
    requires stack != []
    ensures n.Of? ==> 0 < n.n <= |ts|
  {
    if ts == [] then Bad
    else
      var top := stack[|stack| - 1];
      if IsOpen(ts[0]) then More(Scan(ts[1..], stack + [ts[0].c]))
      else if !IsClose(ts[0]) then More(Scan(ts[1..], stack))
      else if ts[0].c != Closer(top) then Bad
      else if |stack| == 1 then Of(1)
      else More(Scan(ts[1..], stack[..|stack| - 1]))
  }

  function More(n: Count): Count {
    match n
    case Bad => Bad
    case Of(k) => Of(k + 1)
  }

  /** The length of the balanced group `ts` starts with. */
  function GroupLength(ts: seq<Token>): (n: Count)
    ensures n.Of? ==> 1 < n.n <= |ts|
  {
    if ts == [] || !IsOpen(ts[0]) then Bad else More(Scan(ts[1..], [ts[0].c]))
  }

  /** `g` is one balanced group. */
  predicate IsGroup(g: seq<Token>) {
    GroupLength(g) == Of(|g|)
  }

  lemma {:induction false} ScanExtends(ts: seq<Token>, rest: seq<Token>, stack: seq<char>)
    requires stack != [] && Scan(ts, stack).Of?
    ensures Scan(ts + rest, stack) == Scan(ts, stack)
    decreases |ts|
  {
    assert (ts + rest)[1..] == ts[1..] + rest;
    if IsOpen(ts[0]) {
      ScanExtends(ts[1..], rest, stack + [ts[0].c]);
    } else if !IsClose(ts[0]) {
      ScanExtends(ts[1..], rest, stack);
    } else if |stack| > 1 {
      ScanExtends(ts[1..], rest, stack[..|stack| - 1]);
    }
  }

  /** What follows a group does not change where it ends. */
  lemma {:induction false} GroupStands(g: seq<Token>, rest: seq<Token>)
    requires IsGroup(g)
    ensures GroupLength(g + rest) == Of(|g|)
    ensures (g + rest)[..|g|] == g && (g + rest)[|g|..] == rest
  {
    assert (g + rest)[1..] == g[1..] + rest;
    ScanExtends(g[1..], rest, [g[0].c]);
  }

  lemma {:induction false} GroupPrefix(ts: seq<Token>, k: nat)
    requires GroupLength(ts) == Of(k)
    ensures GroupLength(ts[..k]) == Of(k)
  {
    ScanPrefix(ts[1..], [ts[0].c], k - 1);
    assert ts[1..][..k - 1] == ts[..k][1..];
  }

  lemma {:induction false} ScanPrefix(ts: seq<Token>, stack: seq<char>, k: nat)
    requires stack != [] && Scan(ts, stack) == Of(k)
    ensures Scan(ts[..k], stack) == Of(k)
    decreases |ts|
  {
    assert k > 1 ==> ts[..k][1..] == ts[1..][..k - 1];
    if IsOpen(ts[0]) {
      ScanPrefix(ts[1..], stack + [ts[0].c], k - 1);
    } else if !IsClose(ts[0]) {
      ScanPrefix(ts[1..], stack, k - 1);
    } else if |stack| > 1 {
      ScanPrefix(ts[1..], stack[..|stack| - 1], k - 1);
    }
  }

  // ---- balanced text, as it is written --------------------------------------------

  datatype Bracket = Paren | Squared | Braced | Angled

  /** A token that is no bracket, or pieces between two brackets of a kind. */
  datatype Piece = Plain(token: Token) | Nested(bracket: Bracket, inside: seq<Piece>)

  function Opening(b: Bracket): Token {
    match b
    case Paren => Punct('(')
    case Squared => Punct('[')
    case Braced => Punct('{')
    case Angled => Punct('<')
  }

  function Closing(b: Bracket): Token {
    match b
    case Paren => Punct(')')
    case Squared => Punct(']')
    case Braced => Punct('}')
    case Angled => Punct('>')
  }

  function PieceTokens(ps: seq<Piece>): seq<Token>
    decreases ps
  {
    if ps == [] then []
    else
      var head := match ps[0]
        case Plain(t) => [t]
        case Nested(b, inside) => [Opening(b)] + PieceTokens(inside) + [Closing(b)];
      head + PieceTokens(ps[1..])
  }

  ghost predicate GoodPieces(ps: seq<Piece>)
    decreases ps
  {
    forall i | 0 <= i < |ps| ::
      match ps[i]
      case Plain(t) =>
        forall c | t == Punct(c) :: c !in {'(', ')', '[', ']', '{', '}', '<', '>'}
      case Nested(_, inside) => GoodPieces(inside)
  }

  /** A written group: `b`'s opening bracket, pieces, and its closing bracket. */
  ghost predicate Written(b: Bracket, g: seq<Token>) {
    exists ps :: GoodPieces(ps) && g == [Opening(b)] + PieceTokens(ps) + [Closing(b)]
  }

  ghost function Plus(n: Count, k: nat): Count {
    match n
    case Bad => Bad
    case Of(m) => Of(m + k)
  }

  lemma {:induction false} Brackets(b: Bracket)
    ensures IsOpen(Opening(b)) && IsClose(Closing(b)) && !IsOpen(Closing(b))
    ensures Closing(b).c == Closer(Opening(b).c)
  {
  }

  /** A bracket opened and closed again. */
  lemma {:induction false} ScanGroup(b: Bracket, inside: seq<Token>, more: seq<Token>, stack: seq<char>)
    requires stack != []
    requires var close := [Closing(b)] + more;
             Scan(inside + close, stack + [Opening(b).c]) == Plus(Scan(close, stack + [Opening(b).c]), |inside|)
    ensures Scan([Opening(b)] + (inside + ([Closing(b)] + more)), stack) == Plus(Scan(more, stack), |inside| + 2)
  {
    Brackets(b);
    var close := [Closing(b)] + more;
    var ts := [Opening(b)] + (inside + close);
    assert ts[1..] == inside + close;
    assert close[1..] == more;
    assert (stack + [Opening(b).c])[..|stack|] == stack;
  }

  predicate IsPlain(t: Token) {
    !IsOpen(t) && !IsClose(t)
  }

  lemma {:induction false} PiecesFirst(ps: seq<Piece>, rest: seq<Token>)
    requires GoodPieces(ps) && ps != []
    ensures GoodPieces(ps[1..]) && match ps[0] case Plain(t) => IsPlain(t) case Nested(_, inside) => GoodPieces(inside)
    ensures var more := PieceTokens(ps[1..]) + rest;
            PieceTokens(ps) + rest ==
              match ps[0]
              case Plain(t) => [t] + more
              case Nested(b, inside) => [Opening(b)] + (PieceTokens(inside) + ([Closing(b)] + more))
  {
    match ps[0]
    case Plain(t) =>
    case Nested(b, inside) =>
      var x, y, z := [Opening(b)], PieceTokens(inside), [Closing(b)];
      hide PieceTokens;
      assert x + y + z + PieceTokens(ps[1..]) + rest == x + (y + (z + (PieceTokens(ps[1..]) + rest)));
  }

  /** Scanning past what is inside a written group leaves the stack as it was. */
  lemma {:induction false} ScanPieces(ps: seq<Piece>, rest: seq<Token>, stack: seq<char>)
    requires GoodPieces(ps) && stack != []
    ensures Scan(PieceTokens(ps) + rest, stack) == Plus(Scan(rest, stack), |PieceTokens(ps)|)
    decreases ps
  {
    if ps == [] {
      assert PieceTokens(ps) + rest == rest;
    } else {
      var more := PieceTokens(ps[1..]) + rest;
      PiecesFirst(ps, rest);
      ScanPieces(ps[1..], rest, stack);
      assert |PieceTokens(ps) + rest| == |PieceTokens(ps)| + |rest|;
      assert |more| == |PieceTokens(ps[1..])| + |rest|;
      hide PieceTokens, GoodPieces, Opening, Closing, IsOpen, IsClose;
      match ps[0]
      case Plain(t) => assert ([t] + more)[1..] == more;
      case Nested(b, inside) =>
        ScanPieces(inside, [Closing(b)] + more, stack + [Opening(b).c]);
        hide Scan;
        ScanGroup(b, PieceTokens(inside), more, stack);
    }
  }

  /** A written group is taken whole, whatever follows it. */
  lemma {:induction false} WrittenReads(b: Bracket, g: seq<Token>, rest: seq<Token>)
    requires Written(b, g)
    ensures GroupLength(g + rest) == Of(|g|) && IsGroup(g) && g[0] == Opening(b)
  {
    var ps :| GoodPieces(ps) && g == [Opening(b)] + PieceTokens(ps) + [Closing(b)];
    WrittenLength(b, ps, rest);
    WrittenLength(b, ps, []);
    hide GroupLength;
    assert g + [] == g;
  }

  lemma {:induction false} WrittenLength(b: Bracket, ps: seq<Piece>, rest: seq<Token>)
    requires GoodPieces(ps)
    ensures var g := [Opening(b)] + PieceTokens(ps) + [Closing(b)]; GroupLength(g + rest) == Of(|g|)
  {
    var inside, close := PieceTokens(ps), [Closing(b)] + rest;
    var g := [Opening(b)] + inside + [Closing(b)];
    Brackets(b);
    ScanPieces(ps, close, [Opening(b).c]);
    hide PieceTokens, GoodPieces;
    assert (g + rest)[1..] == inside + close;
    assert close[1..] == rest;
    hide Opening, Closing;
  }

  function BracketOf(c: char): Bracket {
    if c == '(' then Paren else if c == '[' then Squared else if c == '{' then Braced else Angled
  }

  /** A plain token, and then pieces up to the bracket that closes `b`. */
  lemma {:induction false} PlainThen(ts: seq<Token>, ps: seq<Piece>, b: Bracket, rest: seq<Token>)
    requires ts != [] && IsPlain(ts[0]) && GoodPieces(ps) && ts[1..] == PieceTokens(ps) + [Closing(b)] + rest
    ensures GoodPieces([Plain(ts[0])] + ps) && ts == PieceTokens([Plain(ts[0])] + ps) + [Closing(b)] + rest
  {
    assert ([Plain(ts[0])] + ps)[1..] == ps;
    assert ts == [ts[0]] + ts[1..];
  }

  /** A group, and then pieces up to the bracket that closes `b`. */
  lemma {:induction false} NestedThen(ts: seq<Token>, d: Bracket, inside: seq<Piece>, after: seq<Token>,
      ps: seq<Piece>, b: Bracket, rest: seq<Token>)
    requires ts != [] && ts[0] == Opening(d) && GoodPieces(inside) && GoodPieces(ps)
    requires ts[1..] == PieceTokens(inside) + [Closing(d)] + after && after == PieceTokens(ps) + [Closing(b)] + rest
    ensures GoodPieces([Nested(d, inside)] + ps)
    ensures ts == PieceTokens([Nested(d, inside)] + ps) + [Closing(b)] + rest
  {
    NestedTokens(d, inside, ps);
    hide PieceTokens, GoodPieces;
    assert ts == [ts[0]] + ts[1..];
    Around([Opening(d)], PieceTokens(inside), [Closing(d)], PieceTokens(ps), [Closing(b)] + rest);
    var w := PieceTokens([Nested(d, inside)] + ps);
    assert w + [Closing(b)] + rest == w + ([Closing(b)] + rest);
    assert after == PieceTokens(ps) + ([Closing(b)] + rest);
  }

  lemma {:induction false} NestedTokens(d: Bracket, inside: seq<Piece>, ps: seq<Piece>)
    requires GoodPieces(inside) && GoodPieces(ps)
    ensures GoodPieces([Nested(d, inside)] + ps)
    ensures PieceTokens([Nested(d, inside)] + ps)
            == [Opening(d)] + PieceTokens(inside) + [Closing(d)] + PieceTokens(ps)
  {
    assert ([Nested(d, inside)] + ps)[1..] == ps;
  }

  lemma {:induction false} Around(x: seq<Token>, y: seq<Token>, z: seq<Token>, w: seq<Token>, rest: seq<Token>)
    ensures x + (y + z + (w + rest)) == (x + y + z + w) + rest
  {
  }

  /** What the scan passes up to the bracket that closes `b` is pieces. */
  lemma {:induction false} ScanIsPieces(ts: seq<Token>, stack: seq<char>, b: Bracket)
      returns (ps: seq<Piece>, rest: seq<Token>)
    requires Scan(ts, stack + [Opening(b).c]).Of?
    ensures GoodPieces(ps) && ts == PieceTokens(ps) + [Closing(b)] + rest
    ensures stack != [] ==> Scan(rest, stack).Of?
    decreases |ts|
  {
    var whole := stack + [Opening(b).c];
    Brackets(b);
    assert whole[..|stack|] == stack && whole[|whole| - 1] == Opening(b).c;
    if IsClose(ts[0]) {
      ps, rest := [], ts[1..];
      assert ts[0] == Closing(b) && ts == [] + [ts[0]] + ts[1..];
    } else if IsOpen(ts[0]) {
      var d := BracketOf(ts[0].c);
      assert ts[0] == Opening(d);
      hide Opening, Closing, GoodPieces, PieceTokens;
      var inside, after := ScanIsPieces(ts[1..], whole, d);
      var more, last := ScanIsPieces(after, stack, b);
      hide Scan;
      NestedThen(ts, d, inside, after, more, b, last);
      ps, rest := [Nested(d, inside)] + more, last;
    } else {
      hide Opening, Closing, GoodPieces, PieceTokens;
      var more, last := ScanIsPieces(ts[1..], stack, b);
      PlainThen(ts, more, b, last);
      ps, rest := [Plain(ts[0])] + more, last;
    }
  }

  /** The reader takes as a group exactly what is written as one. */
  lemma {:induction false} GroupIff(g: seq<Token>)
    ensures IsGroup(g) <==> exists b :: Written(b, g)
  {
    if IsGroup(g) {
      var b := BracketOf(g[0].c);
      assert [] + [Opening(b).c] == [g[0].c];
      var ps, rest := ScanIsPieces(g[1..], [], b);
      var w := [Opening(b)] + PieceTokens(ps) + [Closing(b)];
      assert g == w + rest;
      WrittenLength(b, ps, rest);
      assert g == w;
      assert Written(b, g);
    }
    if b :| Written(b, g) {
      WrittenReads(b, g, []);
    }
  }

  // ---- attribute values -----------------------------------------------------------

  datatype Attr = StrVal(s: string) | BoolVal(b: bool)
                | NumVal(num: Number) | TypedVal(num: Number, ty: string) | TypedBool(b: bool, ty: string)
                | OpaqueVal(raw: seq<Token>) | WordVal(w: string) | ListVal(items: seq<Attr>) | DictVal(entries: Dict)

  datatype Entry = Entry(key: string, value: Attr)

  /** Keys and values in order; a key is listed once. */
  type Dict = seq<Entry>

  /** A separator, if more items follow. */
  function Comma(more: bool): seq<Token> {
    if more then [Punct(',')] else []
  }

  /** The spelling has a decimal point: several digits, or few enough places to write them all out. */
  predicate Pointed(x: Decimal) {
    x.Decimal? && (x.digits >= 10 || -4 <= x.exponent < 16)
  }

  function Significand(x: Decimal): int
    requires x.Decimal?
  {
    if x.negative then 0 - x.digits else x.digits
  }

  function BoolWord(b: bool): Token {
    Word(if b then "true" else "false")
  }

  /**
   What the lexer makes of a printed number. Without a point, `1e-05` falls apart, and so does `1e+16`, whose
   plus sign is no token at all, like the minus sign of `-inf`.
   */
  function NumberTokens(num: Number): seq<Token> {
    match num
    case IntNum(n) => [Int(n)]
    case FloatNum(x) =>
      if Pointed(x) then [Float(x)]
      else if x.Infinite? then (if x.negative then [Punct('-')] else []) + [Word("inf")]
      else
        [Int(Significand(x)), Word("e")]
        + (if x.exponent < 0 then [] else [Punct('+')]) + [Int(x.exponent)]
  }

  function AttrTokens(v: Attr): seq<Token>
    decreases v, 0
  {
    match v
    case StrVal(s) => [Str(Escape(s))]
    case BoolVal(b) => [BoolWord(b)]
    case NumVal(num) => NumberTokens(num)
    case TypedVal(num, ty) => NumberTokens(num) + [Punct(':'), Word(ty)]
    case TypedBool(b, ty) => [BoolWord(b), Punct(':'), Word(ty)]
    case OpaqueVal(raw) => raw
    case WordVal(w) => [Word(w)]
    case ListVal(items) => [Punct('[')] + ListTokens(items) + [Punct(']')]
    case DictVal(entries) => [Punct('{')] + EntryTokens(entries) + [Punct('}')]
  }

  function ListTokens(items: seq<Attr>): seq<Token>
    decreases items, 1
  {
    if items == [] then []
    else AttrTokens(items[0]) + Comma(|items| > 1) + ListTokens(items[1..])
  }

  function EntryTokens(entries: Dict): seq<Token>
    decreases entries, 1
  {
    if entries == [] then []
    else
      [Word(entries[0].key), Punct('=')] + AttrTokens(entries[0].value)
      + Comma(|entries| > 1) + EntryTokens(entries[1..])
  }

  function DictTokens(entries: Dict): seq<Token> {
    [Punct('{')] + EntryTokens(entries) + [Punct('}')]
  }

  // ---- the reader -----------------------------------------------------------------

  /** `attrs[key] = value`: in place if the key is there, at the end if not. */
  function Assign(entries: Dict, key: string, value: Attr): Dict {
    if entries == [] then [Entry(key, value)]
    else if entries[0].key == key then [Entry(key, value)] + entries[1..]
    else [entries[0]] + Assign(entries[1..], key, value)
  }

  /** A number, and the type after it if there may be one. */
  function Typed(num: Number, ts: seq<Token>, typed: bool): (r: Parsed<Attr>)
    ensures r.Done? ==> |r.rest| <= |ts|
  {
    if !typed || !Starts(ts, Punct(':')) then Done(NumVal(num), ts)
    else if |ts| > 1 && ts[1].Word? then Done(TypedVal(num, ts[1].text), ts[2..])
    else Fail
  }

  /** `typed`: a number may carry its type. */
  function ParseAttr(ts: seq<Token>, typed: bool): (r: Parsed<Attr>)
    ensures r.Done? ==> |r.rest| < |ts|
    decreases |ts|, 0
  {
    if ts == [] then Fail
    else
      match ts[0]
      case Str(t) => Done(StrVal(Unescape(t)), ts[1..])
      case Word(w) =>
        Done(if w == "true" then BoolVal(true) else if w == "false" then BoolVal(false) else WordVal(w), ts[1..])
      case Int(n) => Typed(IntNum(n), ts[1..], typed)
      case Hex(n) => Typed(IntNum(n), ts[1..], typed)
      case Float(x) => Typed(FloatNum(x), ts[1..], typed)
      case Sym(s) => Done(StrVal("@" + s), ts[1..])
      case Hash(_) =>
        if |ts| == 1 || !IsOpen(ts[1]) then Done(OpaqueVal([ts[0]]), ts[1..])
        else
          var n := GroupLength(ts[1..]);
          if n.Bad? then Fail else Done(OpaqueVal(ts[..n.n + 1]), ts[n.n + 1..])
      case Punct(c) =>
        if c == '[' then
          var r := ParseList(ts[1..], []);
          if r.Fail? then Fail else Done(ListVal(r.value), r.rest)
        else if c == '{' then
          var r := ParseEntries(ts[1..], []);
          if r.Fail? then Fail else Done(DictVal(r.value), r.rest)
        else Fail
      case _ => Fail
  }

  /** The rest of an array, after the items of `acc`. */
  function ParseList(ts: seq<Token>, acc: seq<Attr>): (r: Parsed<seq<Attr>>)
    ensures r.Done? ==> |r.rest| < |ts|
    decreases |ts|, 1
  {
    if Starts(ts, Punct(']')) then Done(acc, ts[1..])
    else
      var v := ParseAttr(ts, true);
      if v.Fail? then Fail
      else if Starts(v.rest, Punct(',')) then ParseList(v.rest[1..], acc + [v.value])
      else if Starts(v.rest, Punct(']')) then ParseList(v.rest, acc + [v.value])
      else Fail
  }

  function KeyOf(t: Token): Parsed<string> {
    match t
    case Str(s) => Done(Unescape(s), [])
    case Word(w) => Done(w, [])
    case _ => Fail
  }

  /** The rest of a dictionary, after the entries of `acc`. */
  function ParseEntries(ts: seq<Token>, acc: Dict): (r: Parsed<Dict>)
    ensures r.Done? ==> |r.rest| < |ts|
    decreases |ts|, 1
  {
    if Starts(ts, Punct('}')) then Done(acc, ts[1..])
    else if |ts| < 2 || KeyOf(ts[0]).Fail? || ts[1] != Punct('=') then Fail
    else
      var v := ParseAttr(ts[2..], true);
      if v.Fail? then Fail
      else
        var more := Assign(acc, KeyOf(ts[0]).value, v.value);
        if Starts(v.rest, Punct(',')) then ParseEntries(v.rest[1..], more)
        else if Starts(v.rest, Punct('}')) then ParseEntries(v.rest, more)
        else Fail
  }

  function ParseDict(ts: seq<Token>): (r: Parsed<Dict>)
    ensures r.Done? ==> |r.rest| < |ts|
  {
    if Starts(ts, Punct('{')) then ParseEntries(ts[1..], []) else Fail
  }

  // ---- what survives the round trip -----------------------------------------------

  predicate IsIdent(s: string) {
    && s != "" && (s[0] == '_' || IsLetter(s[0]))
    && forall i | 0 <= i < |s| :: s[i] in {'_', '.'} || IsLetter(s[i]) || '0' <= s[i] <= '9'
  }

  predicate IsLetter(c: char) {
    'a' <= c <= 'z' || 'A' <= c <= 'Z'
  }

  predicate GoodNumber(num: Number) {
    num.FloatNum? ==> Pointed(num.x)
  }

  ghost predicate GoodAttr(v: Attr)
    decreases v, 0
  {
    match v
    case StrVal(s) => !HasBackslashN(s)
    case BoolVal(_) => true
    case NumVal(num) => GoodNumber(num)
    case TypedVal(num, ty) => GoodNumber(num) && IsIdent(ty)
    case TypedBool(_, _) => false
    case OpaqueVal(raw) => raw != [] && raw[0].Hash? && (|raw| == 1 || exists b :: Written(b, raw[1..]))
    case WordVal(w) => IsIdent(w) && w != "true" && w != "false"
    case ListVal(items) => forall i | 0 <= i < |items| :: GoodAttr(items[i])
    case DictVal(entries) => GoodDict(entries)
  }

  /** Identifiers for keys, no key twice, and values that survive. */
  ghost predicate GoodDict(entries: Dict)
    decreases entries, 1
  {
    && (forall i | 0 <= i < |entries| :: IsIdent(entries[i].key) && GoodAttr(entries[i].value))
    && DistinctKeys(entries)
  }

  ghost predicate DistinctKeys(entries: Dict) {
    forall i, j | 0 <= i < j < |entries| :: entries[i].key != entries[j].key
  }

  /** What may follow a value: an opaque word takes a bracket with it, and a number a type. */
  predicate MayFollow(v: Attr, typed: bool, rest: seq<Token>) {
    && (v.OpaqueVal? && |v.raw| == 1 ==> rest == [] || !IsOpen(rest[0]))
    && (v.NumVal? && typed ==> !Starts(rest, Punct(':')))
    && (v.TypedVal? ==> typed)
  }

  lemma {:induction false} AssignNew(entries: Dict, key: string, value: Attr)
    requires forall i | 0 <= i < |entries| :: entries[i].key != key
    ensures Assign(entries, key, value) == entries + [Entry(key, value)]
  {
    if entries != [] {
      AssignNew(entries[1..], key, value);
      assert entries == [entries[0]] + entries[1..];
    }
  }

  /** Where the key is, the value is replaced, and nothing else changes. */
  lemma {:induction false} AssignAt(entries: Dict, i: nat, key: string, value: Attr)
    requires i < |entries| && entries[i].key == key && forall j | 0 <= j < i :: entries[j].key != key
    ensures Assign(entries, key, value) == entries[i := Entry(key, value)]
  {
    if i > 0 {
      AssignAt(entries[1..], i - 1, key, value);
      assert entries == [entries[0]] + entries[1..];
    }
  }

  lemma {:induction false} FirstToken(v: Attr)
    requires GoodAttr(v)
    ensures AttrTokens(v) != [] && AttrTokens(v)[0] != Punct(']') && AttrTokens(v)[0] != Punct('}')
  {
  }

  /** A good value, printed before anything that may follow it, is read back. */
  lemma {:induction false} AttrRoundTrip(v: Attr, typed: bool, rest: seq<Token>)
    requires GoodAttr(v) && MayFollow(v, typed, rest)
    ensures ParseAttr(AttrTokens(v) + rest, typed) == Done(v, rest)
    decreases v, 0
  {
    match v
    case OpaqueVal(raw) => OpaqueRoundTrip(raw, typed, rest);
    case ListVal(items) =>
      ListRoundTrip(items, [], rest);
      assert [] + items == items;
      BracketRoundTrip(v, typed, ListTokens(items), ']', rest);
    case DictVal(entries) =>
      EntriesRoundTrip(entries, [], rest);
      assert [] + entries == entries;
      BracketRoundTrip(v, typed, EntryTokens(entries), '}', rest);
    case _ => ScalarRoundTrip(v, typed, rest);
  }

  lemma {:induction false} ScalarRoundTrip(v: Attr, typed: bool, rest: seq<Token>)
    requires GoodAttr(v) && MayFollow(v, typed, rest) && !v.OpaqueVal? && !v.ListVal? && !v.DictVal?
    ensures ParseAttr(AttrTokens(v) + rest, typed) == Done(v, rest)
  {
    var ts := AttrTokens(v) + rest;
    if v.TypedVal? {
      assert NumberTokens(v.num) == [ts[0]] && ts[1..][0] == Punct(':') && ts[1..][1] == Word(v.ty);
      assert ts[1..][2..] == rest;
    } else {
      assert ts[1..] == rest;
      if v.StrVal? {
        QuotingIff(v.s);
      }
      hide Unescape, Escape;
    }
  }

  /** A number, with its type or without, is read back exactly if its spelling has a point or needs none. */
  lemma {:induction false} NumberRoundTripIff(v: Attr, rest: seq<Token>)
    requires v.NumVal? || (v.TypedVal? && IsIdent(v.ty))
    requires MayFollow(v, true, rest)
    ensures ParseAttr(AttrTokens(v) + rest, true) == Done(v, rest) <==>
              (v.num.FloatNum? ==> var x := v.num.x; x.Decimal? && (x.digits >= 10 || -4 <= x.exponent < 16))
  {
    if GoodNumber(v.num) {
      ScalarRoundTrip(v, true, rest);
    } else {
      var ts := AttrTokens(v) + rest;
      assert ts[0] == NumberTokens(v.num)[0];
      assert !v.num.x.Infinite? ==> ts[1] == Word("e");
    }
  }

  /** A truth value with a type is never read back. */
  lemma {:induction false} TypedBoolLost(b: bool, ty: string, rest: seq<Token>, typed: bool)
    ensures ParseAttr(AttrTokens(TypedBool(b, ty)) + rest, typed) != Done(TypedBool(b, ty), rest)
  {
    var ts := AttrTokens(TypedBool(b, ty)) + rest;
    assert ts[0] == BoolWord(b);
  }

  /** A bracketed value is read back if its inside is. */
  lemma {:induction false} BracketRoundTrip(v: Attr, typed: bool, inside: seq<Token>, close: char, rest: seq<Token>)
    requires v.ListVal? ==>
               close == ']' && inside == ListTokens(v.items)
                 && ParseList(inside + ([Punct(close)] + rest), []) == Done(v.items, rest)
    requires v.DictVal? ==>
               close == '}' && inside == EntryTokens(v.entries)
                 && ParseEntries(inside + ([Punct(close)] + rest), []) == Done(v.entries, rest)
    requires v.ListVal? || v.DictVal?
    ensures ParseAttr(AttrTokens(v) + rest, typed) == Done(v, rest)
  {
    hide ParseList, ParseEntries, ListTokens, EntryTokens;
    var ts := AttrTokens(v) + rest;
    assert ts[0] == Punct(if v.ListVal? then '[' else '{');
    assert ts[1..] == inside + ([Punct(close)] + rest);
  }

  lemma {:induction false} WithoutFirst(xs: seq<Token>, ys: seq<Token>)
    requires xs != []
    ensures (xs + ys)[1..] == xs[1..] + ys
  {
  }

  lemma {:induction false} OpaqueRoundTrip(raw: seq<Token>, typed: bool, rest: seq<Token>)
    requires GoodAttr(OpaqueVal(raw)) && MayFollow(OpaqueVal(raw), typed, rest)
    ensures ParseAttr(raw + rest, typed) == Done(OpaqueVal(raw), rest)
  {
    var ts := raw + rest;
    assert ts[0] == raw[0];
    if |raw| == 1 {
      assert ts[1..] == rest && [ts[0]] == raw;
    } else {
      GroupIff(raw[1..]);
      hide Written;
      GroupStands(raw[1..], rest);
      WithoutFirst(raw, rest);
      assert ts[..|raw|] == raw && ts[|raw|..] == rest;
    }
  }

  /** One item, and what follows it. */
  lemma {:induction false} ListStep(v: Attr, head: seq<Token>, after: seq<Token>, acc: seq<Attr>)
    requires head != [] && head[0] != Punct(']') && ParseAttr(head + after, true) == Done(v, after)
    ensures Starts(after, Punct(',')) ==> ParseList(head + after, acc) == ParseList(after[1..], acc + [v])
    ensures Starts(after, Punct(']')) ==> ParseList(head + after, acc) == ParseList(after, acc + [v])
  {
    hide ParseAttr;
    assert (head + after)[0] == head[0];
  }

  lemma {:induction false} ListUnfold(items: seq<Attr>, tail: seq<Token>)
    requires items != []
    ensures ListTokens(items) + tail == AttrTokens(items[0]) + (Comma(|items| > 1) + (ListTokens(items[1..]) + tail))
  {
    ListStart(items);
    hide AttrTokens, ListTokens, Comma;
    Regroup([], AttrTokens(items[0]), Comma(|items| > 1), ListTokens(items[1..]), tail);
  }

  lemma {:induction false} ListStart(items: seq<Attr>)
    requires items != []
    ensures ListTokens(items) == [] + AttrTokens(items[0]) + Comma(|items| > 1) + ListTokens(items[1..])
  {
    hide AttrTokens;
    assert [] + AttrTokens(items[0]) == AttrTokens(items[0]);
  }

  lemma {:induction false} Regroup(k: seq<Token>, a: seq<Token>, c: seq<Token>, l: seq<Token>, tail: seq<Token>)
    ensures k + a + c + l + tail == k + a + (c + (l + tail))
    ensures k == [] ==> k + a + (c + (l + tail)) == a + (c + (l + tail))
  {
    assert (k + a + c) + l + tail == (k + a + c) + (l + tail);
    assert (k + a) + c + (l + tail) == (k + a) + (c + (l + tail));
  }

  lemma {:induction false} ListEmpty(items: seq<Attr>, acc: seq<Attr>, rest: seq<Token>)
    requires items == []
    ensures ParseList(ListTokens(items) + ([Punct(']')] + rest), acc) == Done(acc + items, rest)
    ensures ListTokens(items) == []
  {
    var tail := [Punct(']')] + rest;
    assert ListTokens(items) + tail == tail && tail[1..] == rest && acc + items == acc;
  }

  lemma {:induction false} AfterComma(more: bool, body: seq<Token>, tail: seq<Token>, t: Token)
    requires Starts(tail, t) && (!more ==> body == [])
    ensures more ==> Starts(Comma(more) + (body + tail), Punct(','))
    ensures more ==> (Comma(more) + (body + tail))[1..] == body + tail
    ensures !more ==> Starts(Comma(more) + (body + tail), t) && Comma(more) + (body + tail) == body + tail
  {
    assert !more ==> Comma(more) + (body + tail) == tail == body + tail;
  }

  lemma {:induction false} ListRoundTrip(items: seq<Attr>, acc: seq<Attr>, rest: seq<Token>)
    requires forall i | 0 <= i < |items| :: GoodAttr(items[i])
    ensures ParseList(ListTokens(items) + ([Punct(']')] + rest), acc) == Done(acc + items, rest)
    decreases items, 1
  {
    hide ParseAttr, ParseList, AttrTokens, GoodAttr, ListTokens, Comma, MayFollow;
    var tail := [Punct(']')] + rest;
    if items == [] {
      ListEmpty(items, acc, rest);
    } else {
      var v, more := items[0], items[1..];
      var after := Comma(|items| > 1) + (ListTokens(more) + tail);
      ListUnfold(items, tail);
      if |items| == 1 {
        ListEmpty(more, acc, rest);
      }
      AfterComma(|items| > 1, ListTokens(more), tail, Punct(']'));
      FirstToken(v);
      FollowsInside(v, after);
      AttrRoundTrip(v, true, after);
      ListRoundTrip(more, acc + [v], rest);
      ListStep(v, AttrTokens(v), after, acc);
      assert acc + [v] + more == acc + items;
    }
  }

  /** Inside brackets a value is followed by a comma or the closing bracket. */
  lemma {:induction false} FollowsInside(v: Attr, rest: seq<Token>)
    requires rest != [] && rest[0] in {Punct(','), Punct(']'), Punct('}')}
    ensures MayFollow(v, true, rest)
  {
  }

  /** One entry, and what follows it. */
  lemma {:induction false} EntryStep(e: Entry, value: seq<Token>, after: seq<Token>, acc: Dict)
    requires ParseAttr(value + after, true) == Done(e.value, after) && forall i | 0 <= i < |acc| :: acc[i].key != e.key
    ensures var ts := [Word(e.key), Punct('=')] + value + after;
            && (Starts(after, Punct(',')) ==> ParseEntries(ts, acc) == ParseEntries(after[1..], acc + [e]))
            && (Starts(after, Punct('}')) ==> ParseEntries(ts, acc) == ParseEntries(after, acc + [e]))
  {
    AssignNew(acc, e.key, e.value);
    var ts := [Word(e.key), Punct('=')] + value + after;
    assert ts[0] == Word(e.key) && ts[1] == Punct('=') && ts[2..] == value + after;
    EntryReads(e, ts, after, acc);
  }

  lemma {:induction false} EntryReads(e: Entry, ts: seq<Token>, after: seq<Token>, acc: Dict)
    requires |ts| >= 2 && ts[0] == Word(e.key) && ts[1] == Punct('=')
    requires ParseAttr(ts[2..], true) == Done(e.value, after)
    requires Assign(acc, e.key, e.value) == acc + [e]
    ensures Starts(after, Punct(',')) ==> ParseEntries(ts, acc) == ParseEntries(after[1..], acc + [e])
    ensures Starts(after, Punct('}')) ==> ParseEntries(ts, acc) == ParseEntries(after, acc + [e])
  {
    hide ParseAttr, Assign;
  }

  lemma {:induction false} EntriesUnfold(entries: Dict, tail: seq<Token>)
    requires entries != []
    ensures EntryTokens(entries) + tail
            == [Word(entries[0].key), Punct('=')] + AttrTokens(entries[0].value)
              + (Comma(|entries| > 1) + (EntryTokens(entries[1..]) + tail))
  {
    EntriesStart(entries);
    hide AttrTokens, EntryTokens, Comma;
    Regroup([Word(entries[0].key), Punct('=')], AttrTokens(entries[0].value), Comma(|entries| > 1),
        EntryTokens(entries[1..]), tail);
  }

  lemma {:induction false} EntriesStart(entries: Dict)
    requires entries != []
    ensures EntryTokens(entries)
            == [Word(entries[0].key), Punct('=')] + AttrTokens(entries[0].value) + Comma(|entries| > 1)
              + EntryTokens(entries[1..])
  {
    hide AttrTokens;
  }

  lemma {:induction false} EntriesEmpty(entries: Dict, acc: Dict, rest: seq<Token>)
    requires entries == []
    ensures ParseEntries(EntryTokens(entries) + ([Punct('}')] + rest), acc) == Done(acc + entries, rest)
    ensures EntryTokens(entries) == []
  {
    var tail := [Punct('}')] + rest;
    assert EntryTokens(entries) + tail == tail && tail[1..] == rest && acc + entries == acc;
  }

  lemma {:induction false} EntriesRoundTrip(entries: Dict, acc: Dict, rest: seq<Token>)
    requires GoodDict(entries) && DistinctKeys(acc + entries)
    ensures ParseEntries(EntryTokens(entries) + ([Punct('}')] + rest), acc) == Done(acc + entries, rest)
    decreases entries, 1
  {
    hide ParseAttr, ParseEntries, AttrTokens, GoodAttr, GoodDict, EntryTokens, Comma, MayFollow, DistinctKeys;
    var tail := [Punct('}')] + rest;
    if entries == [] {
      EntriesEmpty(entries, acc, rest);
    } else {
      var e, more := entries[0], entries[1..];
      var after := Comma(|entries| > 1) + (EntryTokens(more) + tail);
      EntriesUnfold(entries, tail);
      if |entries| == 1 {
        EntriesEmpty(more, acc, rest);
      }
      AfterComma(|entries| > 1, EntryTokens(more), tail, Punct('}'));
      assert (acc + [e]) + more == acc + entries;
      NewKey(acc, entries);
      GoodTail(entries);
      FollowsInside(e.value, after);
      AttrRoundTrip(e.value, true, after);
      EntriesRoundTrip(more, acc + [e], rest);
      EntryStep(e, AttrTokens(e.value), after, acc);
    }
  }

  lemma {:induction false} NewKey(acc: Dict, entries: Dict)
    requires entries != [] && DistinctKeys(acc + entries)
    ensures forall i | 0 <= i < |acc| :: acc[i].key != entries[0].key
  {
    var all := acc + entries;
    forall i | 0 <= i < |acc| ensures acc[i].key != entries[0].key {
      assert all[i] == acc[i] && all[|acc|] == entries[0];
    }
  }

  lemma {:induction false} GoodTail(entries: Dict)
    requires entries != [] && GoodDict(entries)
    ensures GoodDict(entries[1..]) && GoodAttr(entries[0].value)
  {
  }

  /** A good dictionary is read back. */
  lemma {:induction false} DictRoundTrip(entries: Dict, rest: seq<Token>)
    requires GoodDict(entries)
    ensures ParseDict(DictTokens(entries) + rest) == Done(entries, rest)
  {
    assert (DictTokens(entries) + rest)[1..] == EntryTokens(entries) + ([Punct('}')] + rest);
    assert [] + entries == entries;
    EntriesRoundTrip(entries, [], rest);
  }
}
