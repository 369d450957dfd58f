/**
 Functions and modules as they may be written, with what each means; the reader accepts these and no others
 (`parse_module`, `parse_func` in bdc/hs/parse.py).
 */
module FileTexts {
  import opened Attributes
  import opened TypeClauses
  import opened Statements
  import opened StmtTexts
  import opened Functions
  import T = AttrTexts

  // ---- ports ----------------------------------------------------------------------

  /** `...`, a type, or a value with its type. */
  datatype PortText = Dots | Plainly(ty: PortType) | Binding(name: string, ty: PortType)

  function PortTokens(p: PortText, tail: seq<Token>): seq<Token> {
    match p
    case Dots => [Ellipsis] + tail
    case Plainly(ty) => PrintType(ty, tail)
    case Binding(name, ty) => [Val(name), Punct(':')] + PrintType(ty, tail)
  }

  /** Ports with commas between them, and perhaps one after the last. */
  function PortsTokens(ps: seq<PortText>, trailing: bool, tail: seq<Token>): seq<Token> {
    if ps == [] then tail
    else PortTokens(ps[0], CommaTail(|ps| > 1 || trailing, PortsTokens(ps[1..], trailing, tail)))
  }

  function PortOf(p: PortText): seq<Port> {
    match p
    case Dots => []
    case Plainly(ty) => [Port(UNNAMED, ty, "")]
    case Binding(name, ty) => [Port(UNNAMED, ty, name)]
  }

  function PortsOf(ps: seq<PortText>): seq<Port> {
    if ps == [] then [] else PortOf(ps[0]) + PortsOf(ps[1..])
  }

  ghost predicate GoodPortTexts(ps: seq<PortText>, trailing: bool) {
    (trailing ==> ps != []) && forall p | p in ps :: p.Dots? || GoodType(p.ty)
  }

  lemma {:induction false} TypeIff(ts: seq<Token>, t: PortType, rest: seq<Token>)
    ensures ParseType(ts) == Done(t, rest) <==> GoodType(t) && ts == PrintType(t, rest)
  {
    if GoodType(t) && ts == PrintType(t, rest) {
      TypeRoundTrip(t, rest);
    }
    if ParseType(ts) == Done(t, rest) {
      match t
      case Channel(word) =>
        WidthWordIff(word);
        assert ts == [ts[0], ts[1], ts[2], ts[3]] + ts[4..];
      case Control => assert ts == [ts[0], ts[1], ts[2]] + ts[3..];
      case Memref(shape) => MemrefRead(ts, shape, rest);
    }
  }

  lemma {:induction false} MemrefRead(ts: seq<Token>, shape: seq<Token>, rest: seq<Token>)
    requires ParseType(ts) == Done(Memref(shape), rest)
    ensures Written(Angled, shape) && ts == PrintType(Memref(shape), rest)
  {
    var n := GroupLength(ts[1..]).n;
    GroupPrefix(ts[1..], n);
    GroupFrom(shape);
    hide GroupLength, Written;
    assert shape[0] == ts[1..][0];
    assert ts == [ts[0]] + (shape + ts[1..][n..]);
  }

  lemma {:induction false} PortStepReads(p: PortText, after: seq<Token>, acc: seq<Port>, dots: bool)
    requires p.Dots? || GoodType(p.ty)
    requires Starts(after, Punct(',')) || Starts(after, Punct(')'))
    ensures ParseArgList(PortTokens(p, after), acc, dots) ==
              ParseArgList(if Starts(after, Punct(',')) then after[1..] else after, acc + PortOf(p), dots || p.Dots?)
  {
    var ts := PortTokens(p, after);
    match p
    case Dots =>
      assert ts[1..] == after && acc + [] == acc;
      hide ParsePort;
    case Plainly(ty) =>
      TypeRoundTrip(ty, after);
      hide ParseType, PrintType, GoodType;
    case Binding(name, ty) =>
      TypeIff(PrintType(ty, after), ty, after);
      assert ts[1..][0] == Punct(':') && ts[2..] == PrintType(ty, after);
      hide ParseType, PrintType, GoodType;
  }

  lemma {:induction false} PortsRead(ps: seq<PortText>, trailing: bool, tail: seq<Token>, acc: seq<Port>, dots: bool)
    requires GoodPortTexts(ps, trailing)
    ensures ParseArgList(PortsTokens(ps, trailing, [Punct(')')] + tail), acc, dots) ==
              Done((acc + PortsOf(ps), dots || Dots in ps), tail)
    decreases |ps|
  {
    var close := [Punct(')')] + tail;
    if ps == [] {
      assert close[1..] == tail && acc + [] == acc;
    } else {
      var comma, body := |ps| > 1 || trailing, PortsTokens(ps[1..], trailing, close);
      var after := CommaTail(comma, body);
      assert ps[0] in ps && (Dots in ps <==> ps[0] == Dots || Dots in ps[1..]);
      assert acc + PortOf(ps[0]) + PortsOf(ps[1..]) == acc + PortsOf(ps);
      assert if comma then after[1..] == body else after == close && body == close;
      hide ParseArgList, PortTokens, PortOf, GoodType;
      PortStepReads(ps[0], after, acc, dots);
      if ps[1..] == [] {
        PortsEnd(acc + PortOf(ps[0]), dots || ps[0].Dots?, tail);
        assert PortsOf(ps[1..]) == [];
        assert acc + PortOf(ps[0]) + [] == acc + PortOf(ps[0]);
      } else {
        PortsRead(ps[1..], trailing, tail, acc + PortOf(ps[0]), dots || ps[0].Dots?);
      }
    }
  }

  lemma {:induction false} PortsEnd(acc: seq<Port>, dots: bool, tail: seq<Token>)
    ensures ParseArgList([Punct(')')] + tail, acc, dots) == Done((acc, dots), tail)
  {
    assert ([Punct(')')] + tail)[1..] == tail;
  }

  /** One port read, and what is read after it. */
  lemma {:induction false} PortBack(ts: seq<Token>, acc: seq<Port>, dots: bool) returns (p: PortText, after: seq<Token>)
    requires ParseArgList(ts, acc, dots).Done? && !Starts(ts, Punct(')'))
    ensures (p.Dots? || GoodType(p.ty)) && ts == PortTokens(p, after) && |after| < |ts|
    ensures Starts(after, Punct(',')) || Starts(after, Punct(')'))
    ensures ParseArgList(ts, acc, dots) ==
              ParseArgList(if Starts(after, Punct(',')) then after[1..] else after, acc + PortOf(p), dots || p.Dots?)
  {
    hide ParseType;
    if Starts(ts, Ellipsis) {
      p, after := Dots, ts[1..];
      assert ts == [ts[0]] + ts[1..] && acc + [] == acc;
    } else if ts[0].Val? {
      var t := ParseType(ts[2..]);
      TypeIff(ts[2..], t.value, t.rest);
      hide GoodType, PrintType;
      assert ts[1] == ts[1..][0];
      p, after := Binding(ts[0].name, t.value), t.rest;
      assert ts == [ts[0], ts[1]] + ts[2..];
    } else {
      var t := ParseType(ts);
      TypeIff(ts, t.value, t.rest);
      hide GoodType, PrintType;
      p, after := Plainly(t.value), t.rest;
    }
  }

  ghost predicate PortsAre(ts: seq<Token>, acc: seq<Port>, dots: bool, ps: seq<PortText>, trailing: bool) {
    var r := ParseArgList(ts, acc, dots);
    && r.Done? && GoodPortTexts(ps, trailing) && r.value == (acc + PortsOf(ps), dots || Dots in ps)
    && ts == PortsTokens(ps, trailing, [Punct(')')] + r.rest)
  }

  lemma {:induction false} NoPorts(ts: seq<Token>, acc: seq<Port>, dots: bool)
    requires Starts(ts, Punct(')'))
    ensures PortsAre(ts, acc, dots, [], false)
  {
    assert ts == [ts[0]] + ts[1..] && acc + [] == acc;
  }

  lemma {:induction false} ReadIsPorts(ts: seq<Token>, acc: seq<Port>, dots: bool)
      returns (ps: seq<PortText>, trailing: bool)
    requires ParseArgList(ts, acc, dots).Done?
    ensures PortsAre(ts, acc, dots, ps, trailing)
    decreases |ts|
  {
    if Starts(ts, Punct(')')) {
      NoPorts(ts, acc, dots);
      ps, trailing := [], false;
    } else {
      var p, after := PortBack(ts, acc, dots);
      var comma := Starts(after, Punct(','));
      var next := if comma then after[1..] else after;
      assert after == CommaTail(comma, next);
      hide *;
      var more, last := ReadIsPorts(next, acc + PortOf(p), dots || p.Dots?);
      ps, trailing := [p] + more, if more == [] then comma else last;
      PortsJoin(ts, acc, dots, p, after, comma, next, more, last);
    }
  }

  lemma {:induction false} PortsBegin(ps: seq<PortText>, trailing: bool, tail: seq<Token>)
    requires GoodPortTexts(ps, trailing)
    ensures ps != [] ==> !Starts(PortsTokens(ps, trailing, tail), Punct(')'))
  {
    if ps != [] {
      assert ps[0] in ps;
      hide GoodType;
    }
  }

  lemma {:induction false} PortsJoin(ts: seq<Token>, acc: seq<Port>, dots: bool, p: PortText, after: seq<Token>,
      comma: bool, next: seq<Token>, more: seq<PortText>, last: bool)
    requires (p.Dots? || GoodType(p.ty)) && ts == PortTokens(p, after) && after == CommaTail(comma, next)
    requires !comma ==> Starts(next, Punct(')'))
    requires PortsAre(next, acc + PortOf(p), dots || p.Dots?, more, last)
    requires ParseArgList(ts, acc, dots) == ParseArgList(next, acc + PortOf(p), dots || p.Dots?)
    ensures PortsAre(ts, acc, dots, [p] + more, if more == [] then comma else last)
  {
    hide ParseArgList, PortTokens, PortsTokens, GoodType, CommaTail, PortOf, PortsOf;
    var close := [Punct(')')] + ParseArgList(ts, acc, dots).rest;
    PortsBegin(more, last, close);
    PortTokensJoin(p, comma, more, last, close);
    MorePorts(acc, p, more);
  }

  lemma {:induction false} PortTokensJoin(p: PortText, comma: bool, more: seq<PortText>, last: bool, close: seq<Token>)
    requires (!comma ==> more == []) && (last ==> more != [])
    ensures PortsTokens([p] + more, if more == [] then comma else last, close) ==
              PortTokens(p, CommaTail(comma, PortsTokens(more, last, close)))
  {
    assert ([p] + more)[1..] == more;
    hide PortTokens;
  }

  lemma {:induction false} MorePorts(acc: seq<Port>, p: PortText, more: seq<PortText>)
    ensures acc + PortOf(p) + PortsOf(more) == acc + PortsOf([p] + more)
    ensures Dots in [p] + more <==> p == Dots || Dots in more
  {
    assert ([p] + more)[1..] == more;
    hide PortOf;
  }

  // ---- result types -----------------------------------------------------------------

  /** No arrow; one type after it; or types in parentheses, perhaps with a comma after the last. */
  datatype ResultsText = NoArrow | OneType(ty: PortType) | Listed(types: seq<PortType>, trailing: bool)

  function TypesTokens(types: seq<PortType>, trailing: bool, tail: seq<Token>): seq<Token> {
    if types == [] then tail
    else PrintType(types[0], CommaTail(|types| > 1 || trailing, TypesTokens(types[1..], trailing, tail)))
  }

  function ResultsTokens(r: ResultsText, tail: seq<Token>): seq<Token> {
    match r
    case NoArrow => tail
    case OneType(ty) => [Arrow] + PrintType(ty, tail)
    case Listed(types, trailing) => [Arrow, Punct('(')] + TypesTokens(types, trailing, [Punct(')')] + tail)
  }

  function TypedPorts(types: seq<PortType>): seq<Port> {
    seq(|types|, i requires 0 <= i < |types| => Port(UNNAMED, types[i], ""))
  }

  function ResultsOf(r: ResultsText): seq<Port> {
    match r
    case NoArrow => []
    case OneType(ty) => TypedPorts([ty])
    case Listed(types, _) => TypedPorts(types)
  }

  ghost predicate GoodTypes(types: seq<PortType>, trailing: bool) {
    (trailing ==> types != []) && forall t | t in types :: GoodType(t)
  }

  ghost predicate GoodResultsText(r: ResultsText, tail: seq<Token>) {
    match r
    case NoArrow => !Starts(tail, Arrow)
    case OneType(ty) => GoodType(ty)
    case Listed(types, trailing) => GoodTypes(types, trailing)
  }

  lemma {:induction false} TypeStepReads(t: PortType, after: seq<Token>, acc: seq<Port>)
    requires GoodType(t) && (Starts(after, Punct(',')) || Starts(after, Punct(')')))
    ensures ParseTypes(PrintType(t, after), acc) ==
              ParseTypes(if Starts(after, Punct(',')) then after[1..] else after, acc + [Port(UNNAMED, t, "")])
  {
    TypeRoundTrip(t, after);
    hide ParseType, PrintType, GoodType;
  }

  lemma {:induction false} TypesEnd(acc: seq<Port>, tail: seq<Token>)
    ensures ParseTypes([Punct(')')] + tail, acc) == Done(acc, tail)
  {
    assert ([Punct(')')] + tail)[1..] == tail;
  }

  lemma {:induction false} TypesRead(types: seq<PortType>, trailing: bool, tail: seq<Token>, acc: seq<Port>)
    requires GoodTypes(types, trailing)
    ensures ParseTypes(TypesTokens(types, trailing, [Punct(')')] + tail), acc) == Done(acc + TypedPorts(types), tail)
    decreases |types|
  {
    var close := [Punct(')')] + tail;
    if types == [] {
      TypesEnd(acc, tail);
      assert acc + TypedPorts(types) == acc;
    } else {
      var comma, body := |types| > 1 || trailing, TypesTokens(types[1..], trailing, close);
      var after, now := CommaTail(comma, body), acc + [Port(UNNAMED, types[0], "")];
      assert types[0] in types;
      assert now + TypedPorts(types[1..]) == acc + TypedPorts(types);
      assert if comma then after[1..] == body else after == close && body == close;
      hide ParseTypes, PrintType, GoodType, TypedPorts;
      TypeStepReads(types[0], after, acc);
      if types[1..] == [] {
        TypesEnd(now, tail);
        NoTypedPorts(now);
      } else {
        TypesRead(types[1..], trailing, tail, now);
      }
    }
  }

  lemma {:induction false} NoTypedPorts(acc: seq<Port>)
    ensures acc + TypedPorts([]) == acc
  {
  }

  lemma {:induction false} ResultsRead(r: ResultsText, tail: seq<Token>)
    requires GoodResultsText(r, tail)
    ensures ParseResults(ResultsTokens(r, tail)) == Done(ResultsOf(r), tail)
  {
    var ts := ResultsTokens(r, tail);
    match r
    case NoArrow =>
    case OneType(ty) =>
      TypeRoundTrip(ty, tail);
      assert ts[1..] == PrintType(ty, tail) && TypedPorts([ty]) == [Port(UNNAMED, ty, "")];
      hide ParseType, PrintType, GoodType, ParseTypes;
    case Listed(types, trailing) =>
      TypesRead(types, trailing, tail, []);
      assert ts[1..][0] == Punct('(') && ts[2..] == TypesTokens(types, trailing, [Punct(')')] + tail);
      assert [] + TypedPorts(types) == TypedPorts(types);
      hide ParseType, ParseTypes, TypesTokens, TypedPorts;
  }

  ghost predicate TypesAre(ts: seq<Token>, acc: seq<Port>, types: seq<PortType>, trailing: bool) {
    var r := ParseTypes(ts, acc);
    && r.Done? && GoodTypes(types, trailing) && r.value == acc + TypedPorts(types)
    && ts == TypesTokens(types, trailing, [Punct(')')] + r.rest)
  }

  lemma {:induction false} NoTypes(ts: seq<Token>, acc: seq<Port>)
    requires Starts(ts, Punct(')'))
    ensures TypesAre(ts, acc, [], false)
  {
    assert ts == [ts[0]] + ts[1..] && acc + TypedPorts([]) == acc;
  }

  lemma {:induction false} TypeBack(ts: seq<Token>, acc: seq<Port>) returns (t: PortType, after: seq<Token>)
    requires ParseTypes(ts, acc).Done? && !Starts(ts, Punct(')'))
    ensures GoodType(t) && ts == PrintType(t, after) && |after| < |ts|
    ensures Starts(after, Punct(',')) || Starts(after, Punct(')'))
    ensures ParseTypes(ts, acc) ==
              ParseTypes(if Starts(after, Punct(',')) then after[1..] else after, acc + [Port(UNNAMED, t, "")])
  {
    hide ParseType;
    var r := ParseType(ts);
    TypeIff(ts, r.value, r.rest);
    hide GoodType, PrintType;
    t, after := r.value, r.rest;
  }

  lemma {:induction false} ReadIsTypes(ts: seq<Token>, acc: seq<Port>) returns (types: seq<PortType>, trailing: bool)
    requires ParseTypes(ts, acc).Done?
    ensures TypesAre(ts, acc, types, trailing)
    decreases |ts|
  {
    if Starts(ts, Punct(')')) {
      NoTypes(ts, acc);
      types, trailing := [], false;
    } else {
      var t, after := TypeBack(ts, acc);
      var comma := Starts(after, Punct(','));
      var next := if comma then after[1..] else after;
      assert after == CommaTail(comma, next);
      hide *;
      var more, last := ReadIsTypes(next, acc + [Port(UNNAMED, t, "")]);
      types, trailing := [t] + more, if more == [] then comma else last;
      TypesJoin(ts, acc, t, after, comma, next, more, last);
    }
  }

  lemma {:induction false} TypesBegin(types: seq<PortType>, trailing: bool, tail: seq<Token>)
    requires GoodTypes(types, trailing)
    ensures types != [] ==> !Starts(TypesTokens(types, trailing, tail), Punct(')'))
  {
    if types != [] {
      assert types[0] in types;
      hide GoodType;
    }
  }

  lemma {:induction false} TypesJoin(ts: seq<Token>, acc: seq<Port>, t: PortType, after: seq<Token>, comma: bool,
      next: seq<Token>, more: seq<PortType>, last: bool)
    requires GoodType(t) && ts == PrintType(t, after) && after == CommaTail(comma, next)
    requires !comma ==> Starts(next, Punct(')'))
    requires TypesAre(next, acc + [Port(UNNAMED, t, "")], more, last)
    requires ParseTypes(ts, acc) == ParseTypes(next, acc + [Port(UNNAMED, t, "")])
    ensures TypesAre(ts, acc, [t] + more, if more == [] then comma else last)
  {
    hide ParseTypes, PrintType, TypesTokens, GoodType, CommaTail, TypedPorts;
    var close := [Punct(')')] + ParseTypes(ts, acc).rest;
    TypesBegin(more, last, close);
    TypeTokensJoin(t, comma, more, last, close);
    MoreTypedPorts(acc, t, more);
  }

  lemma {:induction false} TypeTokensJoin(t: PortType, comma: bool, more: seq<PortType>, last: bool,
      close: seq<Token>)
    requires (!comma ==> more == []) && (last ==> more != [])
    ensures TypesTokens([t] + more, if more == [] then comma else last, close) ==
              PrintType(t, CommaTail(comma, TypesTokens(more, last, close)))
  {
    assert ([t] + more)[1..] == more;
    hide PrintType;
  }

  lemma {:induction false} MoreTypedPorts(acc: seq<Port>, t: PortType, more: seq<PortType>)
    ensures acc + [Port(UNNAMED, t, "")] + TypedPorts(more) == acc + TypedPorts([t] + more)
  {
  }

  lemma {:induction false} ReadIsResults(ts: seq<Token>) returns (r: ResultsText)
    requires ParseResults(ts).Done?
    ensures var p := ParseResults(ts);
            GoodResultsText(r, p.rest) && ts == ResultsTokens(r, p.rest) && p.value == ResultsOf(r)
  {
    hide ParseType, ParseTypes, TypesTokens;
    if !Starts(ts, Arrow) {
      r := NoArrow;
    } else if Starts(ts[1..], Punct('(')) {
      var types, trailing := ReadIsTypes(ts[2..], []);
      r := Listed(types, trailing);
      hide TypedPorts;
      assert [] + TypedPorts(types) == TypedPorts(types);
      assert ts[1] == ts[1..][0] && ts == [ts[0], ts[1]] + ts[2..];
    } else {
      var t := ParseType(ts[1..]);
      TypeIff(ts[1..], t.value, t.rest);
      r := OneType(t.value);
      hide GoodType, PrintType;
      assert ts == [ts[0]] + ts[1..];
    }
  }

  // ---- attributes and bodies ----------------------------------------------------------

  datatype AttrsText = NoAttrs | Attrs(entries: seq<T.Pair>, trailing: bool)

  function AttrsTokens(a: AttrsText, tail: seq<Token>): seq<Token> {
    match a
    case NoAttrs => tail
    case Attrs(entries, trailing) => [Word("attributes")] + (T.TextTokens(T.Dictionary(entries, trailing)) + tail)
  }

  function AttrsOf(a: AttrsText): Dict {
    match a
    case NoAttrs => []
    case Attrs(entries, _) => T.Entries([], entries)
  }

  ghost predicate GoodAttrsText(a: AttrsText, tail: seq<Token>) {
    match a
    case NoAttrs => !Starts(tail, Word("attributes"))
    case Attrs(entries, trailing) => T.GoodText(T.Dictionary(entries, trailing), true)
  }

  lemma {:induction false} AttrsRead(a: AttrsText, tail: seq<Token>)
    requires GoodAttrsText(a, tail)
    ensures ParseAttributes(AttrsTokens(a, tail)) == Done(AttrsOf(a), tail)
  {
    hide ParseDict, T.TextTokens, T.Entries, T.GoodText;
    if a.Attrs? {
      var ts := AttrsTokens(a, tail);
      T.DictionaryIff(ts[1..], AttrsOf(a), tail);
      assert ts[1..] == T.TextTokens(T.Dictionary(a.entries, a.trailing)) + tail;
    }
  }

  lemma {:induction false} ReadIsAttrs(ts: seq<Token>) returns (a: AttrsText)
    requires ParseAttributes(ts).Done?
    ensures var r := ParseAttributes(ts);
            GoodAttrsText(a, r.rest) && ts == AttrsTokens(a, r.rest) && r.value == AttrsOf(a)
  {
    hide ParseDict, T.TextTokens, T.Entries, T.GoodText;
    if Starts(ts, Word("attributes")) {
      var d := ParseDict(ts[1..]);
      T.DictionaryIff(ts[1..], d.value, d.rest);
      var entries, trailing :| T.GoodText(T.Dictionary(entries, trailing), true)
        && ts[1..] == T.TextTokens(T.Dictionary(entries, trailing)) + d.rest && T.Entries([], entries) == d.value;
      a := Attrs(entries, trailing);
      assert ts == [ts[0]] + ts[1..];
    } else {
      a := NoAttrs;
    }
  }

  datatype BlockText = Declared | Defined(body: seq<Statement>)

  function BodyTokens(body: seq<Statement>, tail: seq<Token>): seq<Token> {
    if body == [] then tail else StatementTokens(body[0], BodyTokens(body[1..], tail))
  }

  function BlockTokens(b: BlockText, tail: seq<Token>): seq<Token> {
    match b
    case Declared => tail
    case Defined(body) => [Punct('{')] + BodyTokens(body, [Punct('}')] + tail)
  }

  function BodyOf(body: seq<Statement>): seq<Stmt> {
    if body == [] then [] else [Means(body[0])] + BodyOf(body[1..])
  }

  function BlockOf(b: BlockText): (bool, seq<Stmt>) {
    match b
    case Declared => (true, [])
    case Defined(body) => (false, BodyOf(body))
  }

  ghost predicate GoodBodyText(body: seq<Statement>, tail: seq<Token>) {
    body != [] ==> GoodStatement(body[0], BodyTokens(body[1..], tail)) && GoodBodyText(body[1..], tail)
  }

  /** No statement after a type clause begins with `to` or `_`, which the clause could take for its own. */
  ghost predicate Separate(body: seq<Statement>) {
    forall i | 0 < i < |body| && body[i - 1].clause.Colon? && body[i].binds == [] :: body[i].mnemonic !in {"to", "_"}
  }

  ghost predicate GoodBlock(b: BlockText, tail: seq<Token>) {
    match b
    case Declared => !Starts(tail, Punct('{'))
    case Defined(body) => GoodBodyText(body, [Punct('}')] + tail)
  }

  ghost predicate SeparateBlock(b: BlockText) {
    b.Defined? ==> Separate(b.body)
  }

  lemma {:induction false} StatementBegins(st: Statement, tail: seq<Token>)
    ensures StatementTokens(st, tail) != [] && !Starts(StatementTokens(st, tail), Punct('}'))
  {
    if st.binds != [] {
      BindsBegin(st.binds, [Word(st.mnemonic)] + ChunksTokens(st.chunks, ClauseTail(st.clause, tail)));
    }
  }

  lemma {:induction false} ChunksNoType(cs: seq<Chunk>, tail: seq<Token>)
    requires GoodChunks(cs, false, tail) && ArgsEnd(tail)
    ensures !Starts(ChunksTokens(cs, tail), Punct('<'))
  {
    ChunksBegin(cs, false, tail);
  }

  /** A type clause ends before a statement that begins with a value, or with a mnemonic other than these two. */
  lemma {:induction false} StatementEndsTypes(st: Statement, tail: seq<Token>)
    requires GoodStatement(st, tail) && (st.binds == [] ==> st.mnemonic !in {"to", "_"})
    ensures EndsTypes(StatementTokens(st, tail))
  {
    var rest := ChunksTokens(st.chunks, ClauseTail(st.clause, tail));
    if st.binds != [] {
      BindsBegin(st.binds, [Word(st.mnemonic)] + rest);
    } else {
      ChunksNoType(st.chunks, ClauseTail(st.clause, tail));
      assert StatementTokens(st, tail)[1..] == rest;
    }
  }

  /** What follows the first statement of a body does not continue its type clause. */
  lemma {:induction false} FirstIsSeparate(body: seq<Statement>, tail: seq<Token>)
    requires body != [] && GoodBodyText(body, tail) && Separate(body) && Starts(tail, Punct('}'))
    ensures body[0].clause.Colon? ==> EndsTypes(BodyTokens(body[1..], tail))
    ensures Separate(body[1..])
  {
    hide GoodStatement, EndsTypes, StatementTokens;
    if |body| > 1 && body[0].clause.Colon? {
      assert body[1] == body[1..][0];
      StatementEndsTypes(body[1], BodyTokens(body[1..][1..], tail));
    } else if body[0].clause.Colon? {
      EndOfBlock(tail);
    }
    forall i | 0 < i < |body[1..]| && body[1..][i - 1].clause.Colon? && body[1..][i].binds == []
      ensures body[1..][i].mnemonic !in {"to", "_"}
    {
      assert body[1..][i - 1] == body[i] && body[1..][i] == body[i + 1];
    }
  }

  lemma {:induction false} EndOfBlock(tail: seq<Token>)
    requires Starts(tail, Punct('}'))
    ensures EndsTypes(tail)
  {
  }

  lemma {:induction false} StatementStep(st: Statement, after: seq<Token>, acc: seq<Stmt>)
    requires GoodStatement(st, after) && (st.clause.Colon? ==> EndsTypes(after))
    ensures ParseStmts(StatementTokens(st, after), acc) == ParseStmts(after, acc + [Means(st)])
  {
    StatementReads(st, after);
    StatementBegins(st, after);
    hide GoodStatement, EndsTypes, StatementTokens, ParseStmt, Means;
  }

  lemma {:induction false} BodyReads(body: seq<Statement>, tail: seq<Token>, acc: seq<Stmt>)
    requires GoodBodyText(body, [Punct('}')] + tail) && Separate(body)
    ensures ParseStmts(BodyTokens(body, [Punct('}')] + tail), acc) == Done(acc + BodyOf(body), tail)
    decreases |body|
  {
    var close := [Punct('}')] + tail;
    if body == [] {
      assert close[1..] == tail && acc + [] == acc;
    } else {
      var after := BodyTokens(body[1..], close);
      assert acc + [Means(body[0])] + BodyOf(body[1..]) == acc + BodyOf(body);
      FirstIsSeparate(body, close);
      hide GoodStatement, EndsTypes, StatementTokens, ParseStmts, Means, BodyOf, Separate;
      StatementStep(body[0], after, acc);
      BodyReads(body[1..], tail, acc + [Means(body[0])]);
    }
  }

  lemma {:induction false} BlockReads(b: BlockText, tail: seq<Token>)
    requires GoodBlock(b, tail) && SeparateBlock(b)
    ensures ParseBlock(BlockTokens(b, tail)) == Done(BlockOf(b), tail)
  {
    hide ParseStmts, BodyTokens, BodyOf, GoodBodyText, Separate;
    if b.Defined? {
      BodyReads(b.body, tail, []);
      assert BlockTokens(b, tail)[1..] == BodyTokens(b.body, [Punct('}')] + tail);
      assert [] + BodyOf(b.body) == BodyOf(b.body);
    }
  }

  lemma {:induction false} ReadIsBody(ts: seq<Token>, acc: seq<Stmt>) returns (body: seq<Statement>)
    requires ParseStmts(ts, acc).Done?
    ensures var r := ParseStmts(ts, acc);
            GoodBodyText(body, [Punct('}')] + r.rest) && ts == BodyTokens(body, [Punct('}')] + r.rest)
              && r.value == acc + BodyOf(body)
    decreases |ts|
  {
    hide ParseStmt, GoodStatement, StatementTokens, Means;
    if Starts(ts, Punct('}')) {
      body := [];
      assert ts == [ts[0]] + ts[1..] && acc + [] == acc;
    } else {
      var st := ReadIsStatement(ts);
      var more := ReadIsBody(ParseStmt(ts).rest, acc + [Means(st)]);
      body := [st] + more;
      assert body[1..] == more;
      assert acc + [Means(st)] + BodyOf(more) == acc + BodyOf(body);
    }
  }

  lemma {:induction false} ReadIsBlock(ts: seq<Token>) returns (b: BlockText)
    requires ParseBlock(ts).Done?
    ensures var r := ParseBlock(ts); GoodBlock(b, r.rest) && ts == BlockTokens(b, r.rest) && r.value == BlockOf(b)
  {
    hide ParseStmts, BodyTokens, BodyOf, GoodBodyText;
    if Starts(ts, Punct('{')) {
      var body := ReadIsBody(ts[1..], []);
      b := Defined(body);
      assert ts == [ts[0]] + ts[1..];
      assert [] + BodyOf(body) == BodyOf(body);
    } else {
      b := Declared;
    }
  }

  // ---- functions --------------------------------------------------------------------

  datatype FuncText = FuncText(isPrivate: bool, name: string, ports: seq<PortText>, trailing: bool,
                               results: ResultsText, attrs: AttrsText, block: BlockText)

  function AfterPorts(f: FuncText, tail: seq<Token>): seq<Token> {
    ResultsTokens(f.results, AttrsTokens(f.attrs, BlockTokens(f.block, tail)))
  }

  function HeadTokens(f: FuncText, tail: seq<Token>): seq<Token> {
    [Sym(f.name), Punct('(')] + PortsTokens(f.ports, f.trailing, [Punct(')')] + AfterPorts(f, tail))
  }

  function FuncTokens(f: FuncText, tail: seq<Token>): seq<Token> {
    [Word("handshake.func")] + (if f.isPrivate then [Word("private")] + HeadTokens(f, tail) else HeadTokens(f, tail))
  }

  /** Ports with the names that the list under `key` gives them, if there is one of their length. */
  function NamedBy(ports: seq<Port>, attrs: Dict, key: string): seq<Port> {
    var names := Lookup(attrs, key);
    var listed := names.Is? && names.value.ListVal? && |names.value.items| == |ports|;
    seq(|ports|, i requires 0 <= i < |ports| =>
      ports[i].(name := if listed then names.value.items[i] else StrVal("")))
  }

  lemma {:induction false} WithNamesAt(ports: seq<Port>, names: seq<Attr>, i: nat)
    requires |names| == |ports| && i < |ports|
    ensures WithNames(ports, names)[i] == ports[i].(name := names[i])
  {
    if i > 0 {
      WithNamesAt(ports[1..], names[1..], i - 1);
    }
  }

  lemma {:induction false} NamedByIs(ports: seq<Port>, attrs: Dict, key: string)
    ensures NamedBy(ports, attrs, key) == WithNames(ports, NamesFor(attrs, key, |ports|))
  {
    var names := NamesFor(attrs, key, |ports|);
    forall i | 0 <= i < |ports| ensures NamedBy(ports, attrs, key)[i] == WithNames(ports, names)[i] {
      WithNamesAt(ports, names, i);
    }
    hide WithNames;
  }

  /** The function written, its ports named by its attributes where those name them. */
  function FuncOf(f: FuncText): Func {
    var ports, results, attrs := PortsOf(f.ports), ResultsOf(f.results), AttrsOf(f.attrs);
    Func(f.name, NamedBy(ports, attrs, "argNames"), NamedBy(results, attrs, "resNames"),
         BlockOf(f.block).1, attrs, f.isPrivate, BlockOf(f.block).0, Dots in f.ports)
  }

  /** Good parts, none of which could be taken for the one before it, and a producer for every value read. */
  ghost predicate GoodFuncText(f: FuncText, tail: seq<Token>) {
    && GoodPortTexts(f.ports, f.trailing)
    && GoodResultsText(f.results, AttrsTokens(f.attrs, BlockTokens(f.block, tail)))
    && GoodAttrsText(f.attrs, BlockTokens(f.block, tail)) && GoodBlock(f.block, tail)
    && FuncResolves(FuncOf(f))
  }

  lemma {:induction false} AfterPortsReads(f: FuncText, tail: seq<Token>)
    requires GoodFuncText(f, tail) && SeparateBlock(f.block)
    ensures ParseRest(AfterPorts(f, tail), f.name, PortsOf(f.ports), f.isPrivate, Dots in f.ports) ==
              Done(FuncOf(f), tail)
  {
    hide ParseResults, ParseAttributes, ParseBlock, ResultsTokens, AttrsTokens, BlockTokens, ResultsOf, AttrsOf,
      BlockOf, GoodResultsText, GoodAttrsText, GoodBlock, SeparateBlock, PortsOf, GoodPortTexts, NamesFor, WithNames,
      FuncResolves, NamedBy;
    NamedByIs(PortsOf(f.ports), AttrsOf(f.attrs), "argNames");
    NamedByIs(ResultsOf(f.results), AttrsOf(f.attrs), "resNames");
    var block := BlockTokens(f.block, tail);
    BlockReads(f.block, tail);
    AttrsRead(f.attrs, block);
    ResultsRead(f.results, AttrsTokens(f.attrs, block));
  }

  lemma {:induction false} FuncReads(f: FuncText, tail: seq<Token>)
    requires GoodFuncText(f, tail) && SeparateBlock(f.block)
    ensures ParseFunc(FuncTokens(f, tail)) == Done(FuncOf(f), tail)
  {
    var after := AfterPorts(f, tail);
    AfterPortsReads(f, tail);
    PortsRead(f.ports, f.trailing, after, [], false);
    assert [] + PortsOf(f.ports) == PortsOf(f.ports);
    hide GoodFuncText, AfterPorts, FuncOf, ParseRest, ParseArgList, PortsTokens, PortsOf;
    var head := HeadTokens(f, tail);
    assert head[2..] == PortsTokens(f.ports, f.trailing, [Punct(')')] + after);
    assert ParseSignature(head, f.isPrivate) == Done(FuncOf(f), tail);
    assert head[0] == Sym(f.name);
    hide HeadTokens, ParseSignature;
    HeaderReads(f.isPrivate, head, FuncTokens(f, tail));
  }

  lemma {:induction false} ReadIsAfterPorts(ts: seq<Token>, name: string, ports: seq<PortText>, trailing: bool,
      isPrivate: bool)
      returns (f: FuncText)
    requires ParseRest(ts, name, PortsOf(ports), isPrivate, Dots in ports).Done? && GoodPortTexts(ports, trailing)
    ensures var r := ParseRest(ts, name, PortsOf(ports), isPrivate, Dots in ports);
            && GoodFuncText(f, r.rest) && r.value == FuncOf(f) && ts == AfterPorts(f, r.rest)
            && f.isPrivate == isPrivate && f.name == name && f.ports == ports && f.trailing == trailing
  {
    hide ParseResults, ParseAttributes, ParseBlock, ResultsTokens, AttrsTokens, BlockTokens, ResultsOf, AttrsOf,
      BlockOf, GoodResultsText, GoodAttrsText, GoodBlock, PortsOf, GoodPortTexts, NamesFor, WithNames, FuncResolves,
      NamedBy;
    var results := ReadIsResults(ts);
    var afterResults := ParseResults(ts).rest;
    var attrs := ReadIsAttrs(afterResults);
    var afterAttrs := ParseAttributes(afterResults).rest;
    var block := ReadIsBlock(afterAttrs);
    f := FuncText(isPrivate, name, ports, trailing, results, attrs, block);
    NamedByIs(PortsOf(f.ports), AttrsOf(f.attrs), "argNames");
    NamedByIs(ResultsOf(f.results), AttrsOf(f.attrs), "resNames");
  }

  lemma {:induction false} ReadIsFunc(ts: seq<Token>) returns (f: FuncText)
    requires ParseFunc(ts).Done?
    ensures var r := ParseFunc(ts); GoodFuncText(f, r.rest) && ts == FuncTokens(f, r.rest) && r.value == FuncOf(f)
  {
    hide GoodFuncText, AfterPorts, FuncOf, ParseRest, ParseArgList, PortsTokens, PortsOf;
    var isPrivate := Starts(ts[1..], Word("private"));
    var head := if isPrivate then ts[2..] else ts[1..];
    assert ts == [ts[0]] + ts[1..];
    assert isPrivate ==> ts[1..] == [Word("private")] + ts[2..];
    assert ParseFunc(ts) == ParseSignature(head, isPrivate);
    var args := ParseArgList(head[2..], [], false);
    var ports, trailing := ReadIsPorts(head[2..], [], false);
    assert [] + PortsOf(ports) == PortsOf(ports);
    f := ReadIsAfterPorts(args.rest, head[0].name, ports, trailing, isPrivate);
    assert head == [head[0], head[1]] + head[2..];
  }

  // ---- files ------------------------------------------------------------------------

  /** A function, or a module with its attributes, if any, and its items. */
  datatype ItemText = FuncItem(f: FuncText) | ModuleItem(attrs: AttrsText, items: seq<ItemText>)

  function ItemsTokens(items: seq<ItemText>, tail: seq<Token>): seq<Token>
    decreases items
  {
    if items == [] then tail
    else
      match items[0]
      case FuncItem(f) => FuncTokens(f, ItemsTokens(items[1..], tail))
      case ModuleItem(attrs, inner) =>
        [Word("module")]
        + AttrsTokens(attrs, [Punct('{')] + ItemsTokens(inner, [Punct('}')] + ItemsTokens(items[1..], tail)))
  }

  /** The functions in order, each with the modules it sits in; those of one level are numbered from `next` on. */
  function FuncsOf(items: seq<ItemText>, path: seq<nat>, next: nat): seq<Located>
    decreases items
  {
    if items == [] then []
    else
      match items[0]
      case FuncItem(f) => [Located(FuncOf(f), path)] + FuncsOf(items[1..], path, next)
      case ModuleItem(_, inner) => FuncsOf(inner, path + [next], 0) + FuncsOf(items[1..], path, next + 1)
  }

  ghost predicate GoodItemTexts(items: seq<ItemText>, tail: seq<Token>)
    decreases items
  {
    items != [] ==>
      var after := ItemsTokens(items[1..], tail);
      GoodItemTexts(items[1..], tail) &&
        match items[0]
        case FuncItem(f) => GoodFuncText(f, after)
        case ModuleItem(attrs, inner) =>
          && (attrs.Attrs? ==> T.GoodText(T.Dictionary(attrs.entries, attrs.trailing), true))
          && GoodItemTexts(inner, [Punct('}')] + after)
  }

  ghost predicate SeparateItems(items: seq<ItemText>)
    decreases items
  {
    forall i | 0 <= i < |items| ::
      match items[i]
      case FuncItem(f) => SeparateBlock(f.block)
      case ModuleItem(_, inner) => SeparateItems(inner)
  }

  lemma {:induction false} SeparateFirst(items: seq<ItemText>)
    requires items != [] && SeparateItems(items)
    ensures SeparateItems(items[1..])
    ensures match items[0] case FuncItem(f) => SeparateBlock(f.block) case ModuleItem(_, inner) => SeparateItems(inner)
  {
    hide SeparateBlock;
  }

  lemma {:induction false} FuncBegins(f: FuncText, tail: seq<Token>)
    ensures Starts(FuncTokens(f, tail), Word("handshake.func"))
  {
    hide HeadTokens;
  }

  /** A function, and the items after it. */
  lemma {:induction false} FuncItemReads(ts: seq<Token>, f: Func, after: seq<Token>, path: seq<nat>, next: nat,
      acc: seq<Located>, inside: bool)
    requires Starts(ts, Word("handshake.func")) && ParseFunc(ts) == Done(f, after)
    ensures ParseItems(ts, path, next, acc, inside) == ParseItems(after, path, next, acc + [Located(f, path)], inside)
  {
    hide ParseFunc, ParseAttributes;
  }

  /** Everything written in a module or a file is read, in order. */
  lemma {:induction false} ItemsRead(items: seq<ItemText>, path: seq<nat>, next: nat, acc: seq<Located>, inside: bool,
      tail: seq<Token>)
    requires GoodItemTexts(items, tail) && SeparateItems(items) && LevelEnd(inside, tail)
    ensures ParseItems(ItemsTokens(items, tail), path, next, acc, inside) ==
              Done(acc + FuncsOf(items, path, next), tail)
    decreases items
  {
    hide GoodFuncText, SeparateBlock, FuncTokens, FuncOf, ParseFunc, ParseAttributes, AttrsTokens, T.GoodText;
    if items == [] {
      assert acc + [] == acc;
    } else {
      var more := items[1..];
      var after := ItemsTokens(more, tail);
      SeparateFirst(items);
      match items[0]
      case FuncItem(f) =>
        hide ParseItems;
        FuncReads(f, after);
        FuncBegins(f, after);
        FuncItemReads(FuncTokens(f, after), FuncOf(f), after, path, next, acc, inside);
        ItemsRead(more, path, next, acc + [Located(FuncOf(f), path)], inside, tail);
        assert acc + [Located(FuncOf(f), path)] + FuncsOf(more, path, next) == acc + FuncsOf(items, path, next);
      case ModuleItem(attrs, inner) =>
        hide ParseItems;
        var close := [Punct('}')] + after;
        var body := ItemsTokens(inner, close);
        ItemsRead(inner, path + [next], 0, acc, true, close);
        ItemsRead(more, path, next + 1, acc + FuncsOf(inner, path + [next], 0), inside, tail);
        FuncsAfterModule(items, path, next, acc);
        hide FuncsOf, ItemsTokens, GoodItemTexts, SeparateItems;
        ModuleReads(attrs, body, after, path, next, acc, acc + FuncsOf(inner, path + [next], 0), inside);
    }
  }

  lemma {:induction false} FuncsAfterModule(items: seq<ItemText>, path: seq<nat>, next: nat, acc: seq<Located>)
    requires items != [] && items[0].ModuleItem?
    ensures acc + FuncsOf(items[0].items, path + [next], 0) + FuncsOf(items[1..], path, next + 1)
            == acc + FuncsOf(items, path, next)
  {
  }

  lemma {:induction false} ModuleReads(attrs: AttrsText, body: seq<Token>, after: seq<Token>, path: seq<nat>, next: nat,
      acc: seq<Located>, more: seq<Located>, inside: bool)
    requires attrs.Attrs? ==> T.GoodText(T.Dictionary(attrs.entries, attrs.trailing), true)
    requires ParseItems(body, path + [next], 0, acc, true) == Done(more, [Punct('}')] + after)
    ensures ParseItems([Word("module")] + AttrsTokens(attrs, [Punct('{')] + body), path, next, acc, inside) ==
              ParseItems(after, path, next + 1, more, inside)
  {
    var open := [Punct('{')] + body;
    var ts := [Word("module")] + AttrsTokens(attrs, open);
    AttrsRead(attrs, open);
    hide ParseAttributes, ParseItems, AttrsTokens, T.GoodText;
    assert ts[1..] == AttrsTokens(attrs, open) && open[1..] == body && ([Punct('}')] + after)[1..] == after;
    ModuleStep(ts, open, [Punct('}')] + after, path, next, acc, more, inside);
  }

  lemma {:induction false} ModuleStep(ts: seq<Token>, open: seq<Token>, close: seq<Token>, path: seq<nat>, next: nat,
      acc: seq<Located>, more: seq<Located>, inside: bool)
    requires Starts(ts, Word("module")) && Starts(open, Punct('{')) && Starts(close, Punct('}'))
    requires ParseAttributes(ts[1..]).Done? && ParseAttributes(ts[1..]).rest == open
    requires ParseItems(open[1..], path + [next], 0, acc, true) == Done(more, close)
    ensures ParseItems(ts, path, next, acc, inside) == ParseItems(close[1..], path, next + 1, more, inside)
  {
    hide ParseAttributes, ParseFunc;
  }

  ghost predicate ItemsAre(ts: seq<Token>, path: seq<nat>, next: nat, acc: seq<Located>, inside: bool,
      items: seq<ItemText>) {
    var r := ParseItems(ts, path, next, acc, inside);
    r.Done? && GoodItemTexts(items, r.rest) && ts == ItemsTokens(items, r.rest)
      && r.value == acc + FuncsOf(items, path, next) && LevelEnd(inside, r.rest)
  }

  lemma {:induction false} NoMoreItems(ts: seq<Token>, path: seq<nat>, next: nat, acc: seq<Located>, inside: bool)
    requires ParseItems(ts, path, next, acc, inside).Done? && (ts == [] || (inside && ts[0] == Punct('}')))
    ensures ItemsAre(ts, path, next, acc, inside, [])
  {
    hide ParseFunc, ParseAttributes;
    assert acc + [] == acc;
  }

  lemma {:induction false} FuncItemBack(ts: seq<Token>, path: seq<nat>, next: nat, acc: seq<Located>, inside: bool)
    requires ParseItems(ts, path, next, acc, inside).Done?
    requires ts != [] && !(inside && ts[0] == Punct('}')) && ts[0] != Word("module")
    ensures ParseFunc(ts).Done? && var f := ParseFunc(ts);
            ParseItems(ts, path, next, acc, inside) ==
              ParseItems(f.rest, path, next, acc + [Located(f.value, path)], inside)
  {
    hide ParseFunc, ParseAttributes;
  }

  lemma {:induction false} ModuleBack(ts: seq<Token>, path: seq<nat>, next: nat, acc: seq<Located>, inside: bool)
      returns (open: seq<Token>, close: seq<Token>, funcs: seq<Located>)
    requires ParseItems(ts, path, next, acc, inside).Done? && Starts(ts, Word("module"))
    ensures ParseAttributes(ts[1..]).Done? && open == ParseAttributes(ts[1..]).rest && Starts(open, Punct('{'))
    ensures ParseItems(open[1..], path + [next], 0, acc, true) == Done(funcs, close) && Starts(close, Punct('}'))
    ensures |close| < |ts| && |open| < |ts|
    ensures ParseItems(ts, path, next, acc, inside) == ParseItems(close[1..], path, next + 1, funcs, inside)
  {
    hide ParseAttributes, ParseFunc;
    open := ParseAttributes(ts[1..]).rest;
    var inner := ParseItems(open[1..], path + [next], 0, acc, true);
    funcs, close := inner.value, inner.rest;
  }

  /** Whatever is read as the items of a module or a file is items, and means what was read. */
  lemma {:induction false} ReadIsItems(ts: seq<Token>, path: seq<nat>, next: nat, acc: seq<Located>, inside: bool)
      returns (items: seq<ItemText>)
    requires ParseItems(ts, path, next, acc, inside).Done?
    ensures ItemsAre(ts, path, next, acc, inside, items)
    decreases |ts|
  {
    hide ParseItems, ParseFunc, ParseAttributes, ItemsAre;
    if ts == [] || (inside && ts[0] == Punct('}')) {
      items := [];
      NoMoreItems(ts, path, next, acc, inside);
    } else if ts[0] == Word("module") {
      var open, close, funcs := ModuleBack(ts, path, next, acc, inside);
      var attrs := ReadIsAttrs(ts[1..]);
      var inner := ReadIsItems(open[1..], path + [next], 0, acc, true);
      var more := ReadIsItems(close[1..], path, next + 1, funcs, inside);
      items := [ModuleItem(attrs, inner)] + more;
      ModuleJoin(ts, path, next, acc, inside, attrs, open, inner, close, funcs, more);
    } else {
      FuncItemBack(ts, path, next, acc, inside);
      var f := ReadIsFunc(ts);
      var after := ParseFunc(ts).rest;
      var more := ReadIsItems(after, path, next, acc + [Located(FuncOf(f), path)], inside);
      items := [FuncItem(f)] + more;
      FuncJoin(ts, path, next, acc, inside, f, after, more);
    }
  }

  lemma {:induction false} FuncJoin(ts: seq<Token>, path: seq<nat>, next: nat, acc: seq<Located>, inside: bool,
      f: FuncText, after: seq<Token>, more: seq<ItemText>)
    requires GoodFuncText(f, after) && ts == FuncTokens(f, after)
    requires ItemsAre(after, path, next, acc + [Located(FuncOf(f), path)], inside, more)
    requires ParseItems(ts, path, next, acc, inside)
             == ParseItems(after, path, next, acc + [Located(FuncOf(f), path)], inside)
    ensures ItemsAre(ts, path, next, acc, inside, [FuncItem(f)] + more)
  {
    hide ParseItems, GoodFuncText, FuncTokens, FuncOf;
    var items := [FuncItem(f)] + more;
    assert items[1..] == more;
    assert acc + [Located(FuncOf(f), path)] + FuncsOf(more, path, next) == acc + FuncsOf(items, path, next);
  }

  lemma {:induction false} ModuleJoin(ts: seq<Token>, path: seq<nat>, next: nat, acc: seq<Located>, inside: bool,
      attrs: AttrsText, open: seq<Token>, inner: seq<ItemText>, close: seq<Token>, funcs: seq<Located>,
      more: seq<ItemText>)
    requires ts != [] && ts[0] == Word("module") && ts[1..] == AttrsTokens(attrs, open) && GoodAttrsText(attrs, open)
    requires Starts(open, Punct('{')) && Starts(close, Punct('}'))
    requires ParseItems(open[1..], path + [next], 0, acc, true) == Done(funcs, close)
    requires ItemsAre(open[1..], path + [next], 0, acc, true, inner)
    requires ItemsAre(close[1..], path, next + 1, funcs, inside, more)
    requires ParseItems(ts, path, next, acc, inside) == ParseItems(close[1..], path, next + 1, funcs, inside)
    ensures ItemsAre(ts, path, next, acc, inside, [ModuleItem(attrs, inner)] + more)
  {
    hide ParseItems, AttrsTokens, T.GoodText;
    var items := [ModuleItem(attrs, inner)] + more;
    var rest := ParseItems(ts, path, next, acc, inside).rest;
    assert items[1..] == more;
    assert ts == [ts[0]] + ts[1..] && open == [Punct('{')] + open[1..] && close == [Punct('}')] + close[1..];
    FuncsAfterModule(items, path, next, acc);
    hide FuncsOf;
    assert ItemsTokens(items, rest) == ts;
    assert GoodItemTexts(items, rest);
  }

  /** Every file as it may be written is read as the functions it means, each in its modules. */
  lemma {:induction false} FileReads(items: seq<ItemText>)
    requires GoodItemTexts(items, []) && SeparateItems(items)
    ensures ParseModule(ItemsTokens(items, [])) == Done(FuncsOf(items, [], 0), [])
  {
    ItemsRead(items, [], 0, [], false, []);
    assert [] + FuncsOf(items, [], 0) == FuncsOf(items, [], 0);
  }

  /**
   The reader never swallows text: whatever it accepts is, token by token, a file as it may be written, and it
   returns what that file means.
   */
  lemma {:induction false} ReadIsFile(ts: seq<Token>) returns (items: seq<ItemText>)
    requires ParseModule(ts).Done?
    ensures GoodItemTexts(items, []) && ts == ItemsTokens(items, [])
    ensures ParseModule(ts) == Done(FuncsOf(items, [], 0), [])
  {
    items := ReadIsItems(ts, [], 0, [], false);
    hide ParseItems, GoodItemTexts, ItemsTokens;
    assert [] + FuncsOf(items, [], 0) == FuncsOf(items, [], 0);
  }
}
