/**
 Functions and modules: printed, and read back (`parse_func`, `_parse_top_item`, `func_to_text`, `_emit_level`
 in bdc/hs/parse.py).
 */
module Functions {
  import opened Attributes
  import opened TypeClauses
  import opened Statements
  import R = Resolution

  // ---- ports ----------------------------------------------------------------------

  /** `!handshake.channel<word>`, `!handshake.control<>`, or a memref with its bracketed shape. */
  datatype PortType = Channel(word: string) | Control | Memref(shape: seq<Token>)

  /** A port with its name, its type, and the value it binds, if any. */
  datatype Port = Port(name: Attr, ty: PortType, ssa: string)

  const UNNAMED := StrVal("")

  function PrintType(t: PortType, tail: seq<Token>): seq<Token> {
    match t
    case Channel(word) => [Bang("!handshake.channel"), Punct('<'), Word(word), Punct('>')] + tail
    case Control => [Bang("!handshake.control"), Punct('<'), Punct('>')] + tail
    case Memref(shape) => [Word("memref")] + (shape + tail)
  }

  /** `iN` or `fN`. */
  predicate IsWidthWord(w: string) {
    |w| > 1 && w[0] in {'i', 'f'} && forall i | 0 < i < |w| :: '0' <= w[i] <= '9'
  }

  function ParseType(ts: seq<Token>): (r: Parsed<PortType>)
    ensures r.Done? ==> |r.rest| < |ts|
  {
    if ts == [] then Fail
    else if ts[0] == Bang("!handshake.channel") then
      if |ts| >= 4 && ts[1] == Punct('<') && ts[2].Word? && IsWidthWord(ts[2].text) && ts[3] == Punct('>')
      then Done(Channel(ts[2].text), ts[4..]) else Fail
    else if ts[0] == Bang("!handshake.control") then
      if |ts| >= 3 && ts[1] == Punct('<') && ts[2] == Punct('>') then Done(Control, ts[3..]) else Fail
    else if ts[0] == Word("memref") && Starts(ts[1..], Punct('<')) then
      var n := GroupLength(ts[1..]);
      if n.Bad? then Fail else Done(Memref(ts[1..][..n.n]), ts[1..][n.n..])
    else Fail
  }

  ghost predicate GoodType(t: PortType) {
    match t
    case Channel(word) => exists digits :: IsNumeral(digits) && (word == "i" + digits || word == "f" + digits)
    case Control => true
    case Memref(shape) => Written(Angled, shape)
  }

  /** Digits, at least one. */
  ghost predicate IsNumeral(s: string) {
    s != "" && forall c | c in s :: c in "0123456789"
  }

  /** The words a channel's type may hold: `i` or `f` with a width. */
  lemma {:induction false} WidthWordIff(w: string)
    ensures IsWidthWord(w) <==> exists digits :: IsNumeral(digits) && (w == "i" + digits || w == "f" + digits)
  {
    assert forall c :: c in "0123456789" <==> '0' <= c <= '9';
    if IsWidthWord(w) {
      assert w == [w[0]] + w[1..];
      assert IsNumeral(w[1..]);
    }
    if digits :| IsNumeral(digits) && (w == "i" + digits || w == "f" + digits) {
      assert forall i | 0 < i < |w| :: w[i] == digits[i - 1] && digits[i - 1] in digits;
    }
  }

  lemma {:induction false} TypeRoundTrip(t: PortType, tail: seq<Token>)
    requires GoodType(t)
    ensures ParseType(PrintType(t, tail)) == Done(t, tail)
    ensures PrintType(t, tail) != [] && !PrintType(t, tail)[0].Val?
    ensures PrintType(t, tail)[0] !in {Ellipsis, Punct(')'), Punct('(')}
  {
    var ts := PrintType(t, tail);
    match t
    case Channel(word) =>
      WidthWordIff(word);
      assert ts[4..] == tail;
    case Control => assert ts[3..] == tail;
    case Memref(shape) =>
      assert ts[1..] == shape + tail;
      WrittenReads(Angled, shape, tail);
      GroupStands(shape, tail);
  }

  function PrintPort(p: Port, tail: seq<Token>): seq<Token> {
    if p.ssa == "" then PrintType(p.ty, tail) else [Val(p.ssa), Punct(':')] + PrintType(p.ty, tail)
  }

  /** Arguments, and the `...` after them if there is one. */
  function PrintArgList(ports: seq<Port>, ellipsis: bool, tail: seq<Token>): seq<Token> {
    if ports == [] then (if ellipsis then [Ellipsis] + tail else tail)
    else
      var more := if |ports| == 1 && !ellipsis then tail else [Punct(',')] + PrintArgList(ports[1..], ellipsis, tail);
      PrintPort(ports[0], more)
  }

  function ParsePort(ts: seq<Token>): (r: Parsed<Port>)
    ensures r.Done? ==> |r.rest| < |ts|
  {
    if ts == [] then Fail
    else if ts[0].Val? then
      var t := if Starts(ts[1..], Punct(':')) then ParseType(ts[2..]) else Fail;
      if t.Fail? then Fail else Done(Port(UNNAMED, t.value, ts[0].name), t.rest)
    else
      var t := ParseType(ts);
      if t.Fail? then Fail else Done(Port(UNNAMED, t.value, ""), t.rest)
  }

  /** The rest of the argument list, after the ports of `acc`. */
  function ParseArgList(ts: seq<Token>, acc: seq<Port>, ellipsis: bool): (r: Parsed<(seq<Port>, bool)>)
    ensures r.Done? ==> |r.rest| < |ts|
    decreases |ts|
  {
    if Starts(ts, Punct(')')) then Done((acc, ellipsis), ts[1..])
    else
      var p := if Starts(ts, Ellipsis) then Done(acc, ts[1..])
               else var p := ParsePort(ts); if p.Fail? then Fail else Done(acc + [p.value], p.rest);
      if p.Fail? then Fail
      else
        var dots := ellipsis || Starts(ts, Ellipsis);
        if Starts(p.rest, Punct(',')) then ParseArgList(p.rest[1..], p.value, dots)
        else if Starts(p.rest, Punct(')')) then ParseArgList(p.rest, p.value, dots)
        else Fail
  }

  lemma {:induction false} PortRoundTrip(p: Port, tail: seq<Token>)
    requires GoodType(p.ty)
    ensures ParsePort(PrintPort(p, tail)) == Done(p.(name := UNNAMED), tail)
    ensures PrintPort(p, tail) != [] && PrintPort(p, tail)[0] !in {Ellipsis, Punct(')')}
  {
    var ts := PrintPort(p, tail);
    TypeRoundTrip(p.ty, tail);
    if p.ssa != "" {
      assert ts[1..][0] == Punct(':') && ts[2..] == PrintType(p.ty, tail);
    }
    hide ParseType, PrintType;
  }

  /** The ports before their names are known. */
  function Unnamed(ports: seq<Port>): (r: seq<Port>)
    ensures |r| == |ports|
  {
    if ports == [] then [] else [ports[0].(name := UNNAMED)] + Unnamed(ports[1..])
  }

  ghost predicate GoodPorts(ports: seq<Port>) {
    forall p | p in ports :: GoodType(p.ty)
  }

  /** One more argument, and what follows it. */
  lemma {:induction false} PortStep(p: Port, after: seq<Token>, acc: seq<Port>)
    requires GoodType(p.ty)
    ensures Starts(after, Punct(',')) ==>
              ParseArgList(PrintPort(p, after), acc, false) ==
                ParseArgList(after[1..], acc + [p.(name := UNNAMED)], false)
    ensures Starts(after, Punct(')')) ==>
              ParseArgList(PrintPort(p, after), acc, false) == ParseArgList(after, acc + [p.(name := UNNAMED)], false)
  {
    PortRoundTrip(p, after);
    hide ParsePort, PrintPort;
  }

  lemma {:induction false} EndOfArgs(acc: seq<Port>, ellipsis: bool, tail: seq<Token>)
    ensures ParseArgList(PrintArgList([], ellipsis, [Punct(')')] + tail), acc, false) == Done((acc, ellipsis), tail)
  {
    var close := [Punct(')')] + tail;
    assert close[1..] == tail;
    if ellipsis {
      assert ([Ellipsis] + close)[1..] == close;
    }
  }

  lemma {:induction false} ArgListRoundTrip(ports: seq<Port>, ellipsis: bool, tail: seq<Token>, acc: seq<Port>)
    requires GoodPorts(ports)
    ensures ParseArgList(PrintArgList(ports, ellipsis, [Punct(')')] + tail), acc, false) ==
              Done((acc + Unnamed(ports), ellipsis), tail)
    decreases |ports|
  {
    hide ParseArgList, PrintPort, GoodType;
    var close := [Punct(')')] + tail;
    if ports == [] {
      EndOfArgs(acc, ellipsis, tail);
      assert acc + [] == acc;
    } else {
      var p, more := ports[0], ports[1..];
      assert p in ports;
      var after := if |ports| == 1 && !ellipsis then close else [Punct(',')] + PrintArgList(more, ellipsis, close);
      assert if |ports| == 1 && !ellipsis then PrintArgList(more, ellipsis, close) == close
             else after[1..] == PrintArgList(more, ellipsis, close);
      assert PrintArgList(ports, ellipsis, close) == PrintPort(p, after);
      UnnamedFirst(ports, acc);
      hide PrintArgList, Unnamed;
      PortStep(p, after, acc);
      ArgListRoundTrip(more, ellipsis, tail, acc + [p.(name := UNNAMED)]);
    }
  }

  function PrintTypes(ports: seq<Port>, tail: seq<Token>): seq<Token> {
    if ports == [] then tail
    else PrintType(ports[0].ty, if |ports| == 1 then tail else [Punct(',')] + PrintTypes(ports[1..], tail))
  }

  /** Nothing, one type, or several in parentheses. */
  function PrintResults(results: seq<Port>, tail: seq<Token>): seq<Token> {
    if results == [] then tail
    else if |results| == 1 then [Arrow] + PrintType(results[0].ty, tail)
    else [Arrow, Punct('(')] + PrintTypes(results, [Punct(')')] + tail)
  }

  /** The rest of a parenthesised result list. */
  function ParseTypes(ts: seq<Token>, acc: seq<Port>): (r: Parsed<seq<Port>>)
    ensures r.Done? ==> |r.rest| < |ts|
    decreases |ts|
  {
    if Starts(ts, Punct(')')) then Done(acc, ts[1..])
    else
      var t := ParseType(ts);
      if t.Fail? then Fail
      else
        var more := acc + [Port(UNNAMED, t.value, "")];
        if Starts(t.rest, Punct(',')) then ParseTypes(t.rest[1..], more)
        else if Starts(t.rest, Punct(')')) then ParseTypes(t.rest, more)
        else Fail
  }

  function ParseResults(ts: seq<Token>): (r: Parsed<seq<Port>>)
    ensures r.Done? ==> |r.rest| <= |ts|
  {
    if !Starts(ts, Arrow) then Done([], ts)
    else if Starts(ts[1..], Punct('(')) then ParseTypes(ts[2..], [])
    else
      var t := ParseType(ts[1..]);
      if t.Fail? then Fail else Done([Port(UNNAMED, t.value, "")], t.rest)
  }

  ghost predicate Anonymous(ports: seq<Port>) {
    forall p | p in ports :: p.ssa == ""
  }

  lemma {:induction false} TypeStep(p: Port, after: seq<Token>, acc: seq<Port>)
    requires GoodType(p.ty) && p.ssa == ""
    ensures Starts(after, Punct(',')) ==>
              ParseTypes(PrintType(p.ty, after), acc) == ParseTypes(after[1..], acc + [p.(name := UNNAMED)])
    ensures Starts(after, Punct(')')) ==>
              ParseTypes(PrintType(p.ty, after), acc) == ParseTypes(after, acc + [p.(name := UNNAMED)])
  {
    TypeRoundTrip(p.ty, after);
    hide ParseType, PrintType;
  }

  lemma {:induction false} UnnamedFirst(ports: seq<Port>, acc: seq<Port>)
    requires ports != []
    ensures acc + [ports[0].(name := UNNAMED)] + Unnamed(ports[1..]) == acc + Unnamed(ports)
  {
  }

  lemma {:induction false} TypesRoundTrip(ports: seq<Port>, tail: seq<Token>, acc: seq<Port>)
    requires GoodPorts(ports) && Anonymous(ports)
    ensures ParseTypes(PrintTypes(ports, [Punct(')')] + tail), acc) == Done(acc + Unnamed(ports), tail)
    decreases |ports|
  {
    hide PrintType, GoodType;
    var close := [Punct(')')] + tail;
    if ports == [] {
      assert close[1..] == tail && acc + [] == acc;
    } else {
      hide ParseTypes;
      var p, more := ports[0], ports[1..];
      assert p in ports;
      var after := if |ports| == 1 then close else [Punct(',')] + PrintTypes(more, close);
      assert if |ports| == 1 then PrintTypes(more, close) == close else after[1..] == PrintTypes(more, close);
      assert PrintTypes(ports, close) == PrintType(p.ty, after);
      UnnamedFirst(ports, acc);
      hide PrintTypes, Unnamed;
      TypeStep(p, after, acc);
      TypesRoundTrip(more, tail, acc + [p.(name := UNNAMED)]);
    }
  }

  lemma {:induction false} ResultsRoundTrip(results: seq<Port>, tail: seq<Token>)
    requires GoodPorts(results) && Anonymous(results) && !Starts(tail, Arrow)
    ensures ParseResults(PrintResults(results, tail)) == Done(Unnamed(results), tail)
  {
    var ts := PrintResults(results, tail);
    if |results| == 1 {
      assert results[0] in results;
      TypeRoundTrip(results[0].ty, tail);
      assert ts[1..] == PrintType(results[0].ty, tail);
      assert Unnamed(results) == [results[0].(name := UNNAMED)];
    } else if |results| > 1 {
      TypesRoundTrip(results, tail, []);
      assert ts[1..][0] == Punct('(') && ts[2..] == PrintTypes(results, [Punct(')')] + tail);
      assert [] + Unnamed(results) == Unnamed(results);
    }
  }

  // ---- names ----------------------------------------------------------------------

  datatype Found = Missing | Is(value: Attr)

  function Lookup(d: Dict, key: string): Found {
    if d == [] then Missing else if d[0].key == key then Is(d[0].value) else Lookup(d[1..], key)
  }

  /** The names the attribute gives `n` ports: its list, if it is one of that length. */
  function NamesFor(d: Dict, key: string, n: nat): (names: seq<Attr>)
    ensures |names| == n
  {
    var v := Lookup(d, key);
    if v.Is? && v.value.ListVal? && |v.value.items| == n then v.value.items else seq(n, _ => UNNAMED)
  }

  function Names(ports: seq<Port>): (names: seq<Attr>)
    ensures |names| == |ports|
  {
    if ports == [] then [] else [ports[0].name] + Names(ports[1..])
  }

  function WithNames(ports: seq<Port>, names: seq<Attr>): (r: seq<Port>)
    requires |names| == |ports|
    ensures |r| == |ports|
    decreases |ports|
  {
    if ports == [] then [] else [ports[0].(name := names[0])] + WithNames(ports[1..], names[1..])
  }

  predicate AnyNamed(ports: seq<Port>) {
    exists p :: p in ports && Truthy(p.name)
  }

  /** Whether the value counts as a name: zero, `false` and whatever is empty do not. */
  predicate Truthy(v: Attr) {
    match v
    case StrVal(s) => s != ""
    case BoolVal(b) => b
    case NumVal(num) => num != IntNum(0) && !(num.FloatNum? && num.x.Decimal? && num.x.digits == 0)
    case ListVal(items) => items != []
    case DictVal(entries) => entries != []
    case _ => true
  }

  /** An empty string, array or dictionary, zero, or `false`. */
  ghost predicate Nameless(v: Attr) {
    || v == StrVal("") || v == ListVal([]) || v == DictVal([]) || v == BoolVal(false) || v == NumVal(IntNum(0))
    || (v.NumVal? && v.num.FloatNum? && v.num.x.Decimal? && v.num.x.digits == 0)
  }

  lemma {:induction false} NamedIff(args: seq<Port>, results: seq<Port>)
    ensures AnyNamed(args) || AnyNamed(results) <==>
              exists p :: (p in args || p in results) && !Nameless(p.name)
  {
    forall v ensures Truthy(v) <==> !Nameless(v) {
    }
  }

  /** The attributes the printer writes: if any port has a name, both name lists. */
  function PrintedAttrs(args: seq<Port>, results: seq<Port>, attrs: Dict): Dict {
    if AnyNamed(args) || AnyNamed(results)
    then Assign(Assign(attrs, "argNames", ListVal(Names(args))), "resNames", ListVal(Names(results)))
    else attrs
  }

  lemma {:induction false} AssignSameIff(d: Dict, key: string, value: Attr)
    ensures Assign(d, key, value) == d <==> Lookup(d, key) == Is(value)
    ensures |Assign(d, key, value)| >= |d|
    ensures Assign(d, key, value) == d || |Assign(d, key, value)| > |d| || Lookup(d, key).Is?
  {
    if d != [] {
      AssignSameIff(d[1..], key, value);
      assert d == [d[0]] + d[1..];
      if d[0].key == key {
        assert Assign(d, key, value)[0] == Entry(key, value);
      } else {
        assert Assign(d, key, value)[1..] == Assign(d[1..], key, value);
      }
    }
  }

  lemma {:induction false} LookupOther(d: Dict, key: string, value: Attr, other: string)
    requires key != other
    ensures Lookup(Assign(d, key, value), other) == Lookup(d, other)
  {
    if d != [] {
      LookupOther(d[1..], key, value, other);
      var a := Assign(d, key, value);
      if d[0].key == key {
        assert a[1..] == d[1..];
      } else {
        assert a[1..] == Assign(d[1..], key, value);
      }
    } else {
      assert Assign(d, key, value)[1..] == [];
    }
  }

  lemma {:induction false} LookupAssigned(d: Dict, key: string, value: Attr)
    ensures Lookup(Assign(d, key, value), key) == Is(value)
  {
    if d != [] && d[0].key != key {
      LookupAssigned(d[1..], key, value);
      assert Assign(d, key, value)[1..] == Assign(d[1..], key, value);
    }
  }

  /** The printed attributes are the ones read exactly when no port is named or both name lists are there. */
  lemma {:induction false} NamesKeptIff(args: seq<Port>, results: seq<Port>, attrs: Dict)
    ensures PrintedAttrs(args, results, attrs) == attrs <==>
            ((exists p :: (p in args || p in results) && !Nameless(p.name)) ==>
               Lookup(attrs, "argNames") == Is(ListVal(Names(args)))
                 && Lookup(attrs, "resNames") == Is(ListVal(Names(results))))
  {
    NamedIff(args, results);
    hide AnyNamed, Nameless;
    var a, r := ListVal(Names(args)), ListVal(Names(results));
    var once := Assign(attrs, "argNames", a);
    AssignSameIff(attrs, "argNames", a);
    AssignSameIff(once, "resNames", r);
    AssignSameIff(attrs, "resNames", r);
    LookupOther(attrs, "argNames", a, "resNames");
    LookupAssigned(attrs, "argNames", a);
    LookupOther(once, "resNames", r, "argNames");
    LookupAssigned(once, "resNames", r);
  }

  lemma {:induction false} NamesBack(ports: seq<Port>)
    ensures WithNames(Unnamed(ports), Names(ports)) == ports
  {
    if ports != [] {
      NamesBack(ports[1..]);
      assert Unnamed(ports)[1..] == Unnamed(ports[1..]) && Names(ports)[1..] == Names(ports[1..]);
      assert ports == [ports[0]] + ports[1..];
    }
  }

  // ---- functions --------------------------------------------------------------------

  datatype Func = Func(name: string, args: seq<Port>, results: seq<Port>, body: seq<Stmt>, attrs: Dict,
                       isPrivate: bool, isDeclaration: bool, ellipsis: bool)

  function PrintAttributes(d: Dict, tail: seq<Token>): seq<Token> {
    if d == [] then tail else [Word("attributes")] + (DictTokens(d) + tail)
  }

  function PrintStmts(body: seq<Stmt>, tail: seq<Token>): seq<Token> {
    if body == [] then tail else PrintStmt(body[0], PrintStmts(body[1..], tail))
  }

  function PrintBlock(f: Func, tail: seq<Token>): seq<Token> {
    if f.isDeclaration then tail else [Punct('{')] + PrintStmts(f.body, [Punct('}')] + tail)
  }

  /** What follows the argument list. */
  function PrintRest(f: Func, tail: seq<Token>): seq<Token> {
    PrintResults(f.results, PrintAttributes(PrintedAttrs(f.args, f.results, f.attrs), PrintBlock(f, tail)))
  }

  function PrintSignature(f: Func, tail: seq<Token>): seq<Token> {
    [Sym(f.name), Punct('(')] + PrintArgList(f.args, f.ellipsis, [Punct(')')] + PrintRest(f, tail))
  }

  function PrintFunc(f: Func, tail: seq<Token>): seq<Token> {
    [Word("handshake.func")]
    + if f.isPrivate then [Word("private")] + PrintSignature(f, tail) else PrintSignature(f, tail)
  }

  function ParseAttributes(ts: seq<Token>): (r: Parsed<Dict>)
    ensures r.Done? ==> |r.rest| <= |ts|
  {
    if Starts(ts, Word("attributes")) then ParseDict(ts[1..]) else Done([], ts)
  }

  /** The rest of a body, after the statements of `acc`. */
  function ParseStmts(ts: seq<Token>, acc: seq<Stmt>): (r: Parsed<seq<Stmt>>)
    ensures r.Done? ==> |r.rest| < |ts|
    decreases |ts|
  {
    if Starts(ts, Punct('}')) then Done(acc, ts[1..])
    else
      var s := ParseStmt(ts);
      if s.Fail? then Fail else ParseStmts(s.rest, acc + [s.value])
  }

  /** A body, or none for a declaration. */
  function ParseBlock(ts: seq<Token>): (r: Parsed<(bool, seq<Stmt>)>)
    ensures r.Done? ==> |r.rest| <= |ts|
  {
    if !Starts(ts, Punct('{')) then Done((true, []), ts)
    else
      var b := ParseStmts(ts[1..], []);
      if b.Fail? then Fail else Done((false, b.value), b.rest)
  }

  /** The values the ports bind. */
  function Bindings(ports: seq<Port>): (names: seq<string>)
    ensures |names| == |ports|
  {
    if ports == [] then [] else [ports[0].ssa] + Bindings(ports[1..])
  }

  /** Every value the body reads is an argument or a result. */
  predicate FuncResolves(f: Func) {
    R.Resolves(Bindings(f.args), f.body)
  }

  /** What follows the arguments, which `attributes` may name. */
  function ParseRest(ts: seq<Token>, name: string, args: seq<Port>, isPrivate: bool, ellipsis: bool): (r: Parsed<Func>)
    ensures r.Done? ==> |r.rest| <= |ts|
  {
    var results := ParseResults(ts);
    if results.Fail? then Fail
    else
      var attrs := ParseAttributes(results.rest);
      if attrs.Fail? then Fail
      else
        var block := ParseBlock(attrs.rest);
        if block.Fail? then Fail
        else
          var f := Func(name, WithNames(args, NamesFor(attrs.value, "argNames", |args|)),
                        WithNames(results.value, NamesFor(attrs.value, "resNames", |results.value|)),
                        block.value.1, attrs.value, isPrivate, block.value.0, ellipsis);
          if FuncResolves(f) then Done(f, block.rest) else Fail
  }

  function ParseSignature(ts: seq<Token>, isPrivate: bool): (r: Parsed<Func>)
    ensures r.Done? ==> |r.rest| < |ts|
  {
    if |ts| < 2 || !ts[0].Sym? || ts[1] != Punct('(') then Fail
    else
      var args := ParseArgList(ts[2..], [], false);
      if args.Fail? then Fail else ParseRest(args.rest, ts[0].name, args.value.0, isPrivate, args.value.1)
  }

  function ParseFunc(ts: seq<Token>): (r: Parsed<Func>)
    ensures r.Done? ==> |r.rest| < |ts|
  {
    if !Starts(ts, Word("handshake.func")) then Fail
    else if Starts(ts[1..], Word("private")) then ParseSignature(ts[2..], true)
    else ParseSignature(ts[1..], false)
  }

  ghost predicate GoodBody(body: seq<Stmt>) {
    forall i | 0 <= i < |body| :: GoodStmt(body[i], i == |body| - 1)
  }

  /**
   What survives: sound ports, both name lists or none, statements that survive, and a producer for whatever
   they read.
   */
  ghost predicate GoodFunc(f: Func) {
    && GoodPorts(f.args) && GoodPorts(f.results) && Anonymous(f.results)
    && Names(f.args) == NamesFor(f.attrs, "argNames", |f.args|)
      && Names(f.results) == NamesFor(f.attrs, "resNames", |f.results|)
    && PrintedAttrs(f.args, f.results, f.attrs) == f.attrs
    && GoodDict(f.attrs) && (f.isDeclaration ==> f.body == []) && GoodBody(f.body) && FuncResolves(f)
  }

  /** What may follow a function: another item, the end of the module, or the end of the text. */
  predicate ItemTail(ts: seq<Token>) {
    ts == [] || ts[0] in {Word("handshake.func"), Word("module"), Punct('}')}
  }

  lemma {:induction false} StmtsBegin(body: seq<Stmt>, tail: seq<Token>)
    requires GoodBody(body)
    ensures StmtTail(PrintStmts(body, [Punct('}')] + tail))
    ensures body != [] ==> PrintStmts(body, [Punct('}')] + tail)[0] != Punct('}')
    decreases |body|
  {
    hide GoodStmt, PrintStmt;
    if body != [] {
      BodySplit(body);
      StmtsBegin(body[1..], tail);
      StmtRoundTrip(body[0], |body| == 1, PrintStmts(body[1..], [Punct('}')] + tail));
    }
  }

  lemma {:induction false} BodySplit(body: seq<Stmt>)
    requires body != [] && GoodBody(body)
    ensures GoodStmt(body[0], |body| == 1) && GoodBody(body[1..])
  {
    hide GoodStmt;
    forall i | 0 <= i < |body[1..]| ensures GoodStmt(body[1..][i], i == |body[1..]| - 1) {
      assert body[1..][i] == body[i + 1];
    }
  }

  lemma {:induction false} StmtsRoundTrip(body: seq<Stmt>, tail: seq<Token>, acc: seq<Stmt>)
    requires GoodBody(body)
    ensures ParseStmts(PrintStmts(body, [Punct('}')] + tail), acc) == Done(acc + body, tail)
    decreases |body|
  {
    hide GoodStmt, PrintStmt, ParseStmt, StmtTail;
    var close := [Punct('}')] + tail;
    if body == [] {
      assert close[1..] == tail && acc + [] == acc;
    } else {
      BodySplit(body);
      var after := PrintStmts(body[1..], close);
      StmtsBegin(body, tail);
      StmtsBegin(body[1..], tail);
      StmtRoundTrip(body[0], |body| == 1, after);
      StmtsRoundTrip(body[1..], tail, acc + [body[0]]);
      assert acc + [body[0]] + body[1..] == acc + body;
    }
  }

  lemma {:induction false} BlockRoundTrip(f: Func, tail: seq<Token>)
    requires GoodBody(f.body) && (f.isDeclaration ==> f.body == []) && ItemTail(tail)
    ensures ParseBlock(PrintBlock(f, tail)) == Done((f.isDeclaration, f.body), tail)
    ensures !Starts(PrintBlock(f, tail), Arrow) && !Starts(PrintBlock(f, tail), Word("attributes"))
  {
    hide GoodBody, ParseStmts, PrintStmts;
    if !f.isDeclaration {
      StmtsRoundTrip(f.body, tail, []);
      assert PrintBlock(f, tail)[1..] == PrintStmts(f.body, [Punct('}')] + tail);
      assert [] + f.body == f.body;
    }
  }

  lemma {:induction false} AttributesRoundTrip(d: Dict, tail: seq<Token>)
    requires GoodDict(d) && !Starts(tail, Word("attributes"))
    ensures ParseAttributes(PrintAttributes(d, tail)) == Done(d, tail)
    ensures !Starts(tail, Arrow) ==> !Starts(PrintAttributes(d, tail), Arrow)
  {
    if d != [] {
      assert PrintAttributes(d, tail)[1..] == DictTokens(d) + tail;
      DictRoundTrip(d, tail);
    }
  }

  lemma {:induction false} RestRoundTrip(f: Func, tail: seq<Token>)
    requires GoodFunc(f) && ItemTail(tail)
    ensures ParseRest(PrintRest(f, tail), f.name, Unnamed(f.args), f.isPrivate, f.ellipsis) == Done(f, tail)
  {
    hide GoodPorts, Anonymous, GoodDict, GoodBody, ParseResults, PrintResults, ParseAttributes, PrintAttributes,
      ParseBlock, PrintBlock,
      NamesFor, WithNames, Unnamed, Names, PrintedAttrs, ItemTail;
    var block := PrintBlock(f, tail);
    BlockRoundTrip(f, tail);
    AttributesRoundTrip(f.attrs, block);
    ResultsRoundTrip(f.results, PrintAttributes(f.attrs, block));
    NamesBack(f.args);
    NamesBack(f.results);
  }

  lemma {:induction false} SignatureRoundTrip(f: Func, tail: seq<Token>)
    requires GoodFunc(f) && ItemTail(tail)
    ensures ParseSignature(PrintSignature(f, tail), f.isPrivate) == Done(f, tail)
  {
    hide ParseArgList, PrintArgList, PrintRest, ParseRest, Unnamed;
    var ts := PrintSignature(f, tail);
    ArgListRoundTrip(f.args, f.ellipsis, PrintRest(f, tail), []);
    assert [] + Unnamed(f.args) == Unnamed(f.args);
    assert ts[0] == Sym(f.name) && ts[1] == Punct('(')
             && ts[2..] == PrintArgList(f.args, f.ellipsis, [Punct(')')] + PrintRest(f, tail));
    RestRoundTrip(f, tail);
    hide GoodFunc;
  }

  /** A good function is read back, whatever item follows. */
  lemma {:induction false} FuncRoundTrip(f: Func, tail: seq<Token>)
    requires GoodFunc(f) && ItemTail(tail)
    ensures ParseFunc(PrintFunc(f, tail)) == Done(f, tail)
    ensures Starts(PrintFunc(f, tail), Word("handshake.func"))
  {
    SignatureRoundTrip(f, tail);
    assert PrintSignature(f, tail)[0] == Sym(f.name);
    hide PrintSignature, ParseSignature, GoodFunc, ItemTail;
    HeaderReads(f.isPrivate, PrintSignature(f, tail), PrintFunc(f, tail));
  }

  lemma {:induction false} HeaderReads(isPrivate: bool, signature: seq<Token>, ts: seq<Token>)
    requires signature != [] && signature[0].Sym?
    requires ts == [Word("handshake.func")] + if isPrivate then [Word("private")] + signature else signature
    ensures ParseFunc(ts) == ParseSignature(signature, isPrivate) && Starts(ts, Word("handshake.func"))
  {
    hide ParseSignature;
    if isPrivate {
      assert ts[1..][0] == Word("private") && ts[2..] == signature;
    } else {
      assert ts[1..] == signature;
    }
  }

  // ---- modules ----------------------------------------------------------------------

  /** A function with the chain of module blocks it sits in, each by its index at its level. */
  datatype Located = Located(func: Func, path: seq<nat>)

  /** The printer: functions whose paths share a prefix share a module. */
  function Emit(fs: seq<Located>, depth: nat, tail: seq<Token>): seq<Token>
    decreases |fs|, MaxDepth(fs) - depth
  {
    if fs == [] then tail
    else if |fs[0].path| <= depth then PrintFunc(fs[0].func, Emit(fs[1..], depth, tail))
    else
      var n := Shared(fs, fs[0].path[..depth + 1]);
      SharedSome(fs, fs[0].path[..depth + 1]);
      DepthBounds(fs, n);
      [Word("module"), Punct('{')] + Emit(fs[..n], depth + 1, [Punct('}')] + Emit(fs[n..], depth, tail))
  }

  function MaxDepth(fs: seq<Located>): nat {
    if fs == [] then 0
    else
      var m := MaxDepth(fs[1..]);
      if |fs[0].path| > m then |fs[0].path| else m
  }

  /** How many functions, from the first on, have a path that begins with `prefix`. */
  function Shared(fs: seq<Located>, prefix: seq<nat>): (n: nat)
    ensures n <= |fs|
  {
    if fs == [] || !(prefix <= fs[0].path) then 0 else 1 + Shared(fs[1..], prefix)
  }

  lemma {:induction false} SharedSome(fs: seq<Located>, prefix: seq<nat>)
    requires fs != [] && prefix <= fs[0].path
    ensures Shared(fs, prefix) > 0
  {
  }

  lemma {:induction false} DepthBounds(fs: seq<Located>, n: nat)
    requires n <= |fs|
    ensures MaxDepth(fs[..n]) <= MaxDepth(fs)
    ensures fs != [] ==> |fs[0].path| <= MaxDepth(fs)
  {
    if n > 0 {
      assert fs[..n][1..] == fs[1..][..n - 1];
      DepthBounds(fs[1..], n - 1);
    }
  }

  /** A file as its items nest: functions, and module blocks of items. */
  datatype Tree = Leaf(func: Func) | Block(items: seq<Tree>)

  /** The functions in order; module blocks of one level are numbered from `next` on. */
  function Flatten(trees: seq<Tree>, path: seq<nat>, next: nat): seq<Located>
    decreases trees
  {
    if trees == [] then []
    else
      match trees[0]
      case Leaf(f) => [Located(f, path)] + Flatten(trees[1..], path, next)
      case Block(items) => Flatten(items, path + [next], 0) + Flatten(trees[1..], path, next + 1)
  }

  function PrintTrees(trees: seq<Tree>, tail: seq<Token>): seq<Token>
    decreases trees
  {
    if trees == [] then tail
    else
      match trees[0]
      case Leaf(f) => PrintFunc(f, PrintTrees(trees[1..], tail))
      case Block(items) => [Word("module"), Punct('{')] + PrintTrees(items, [Punct('}')] + PrintTrees(trees[1..], tail))
  }

  /** Good functions, and no empty module. */
  ghost predicate GoodTrees(trees: seq<Tree>)
    decreases trees
  {
    forall i | 0 <= i < |trees| ::
      match trees[i]
      case Leaf(f) => GoodFunc(f)
      case Block(items) => items != [] && GoodTrees(items)
  }

  /** The rest of a level: its functions join those of `acc`. */
  function ParseItems(ts: seq<Token>, path: seq<nat>, next: nat, acc: seq<Located>,
      inside: bool): (r: Parsed<seq<Located>>)
    ensures r.Done? ==> |r.rest| <= |ts|
    decreases |ts|
  {
    if ts == [] then (if inside then Fail else Done(acc, ts))
    else if inside && ts[0] == Punct('}') then Done(acc, ts)
    else if ts[0] == Word("module") then
      var attrs := ParseAttributes(ts[1..]);
      if attrs.Fail? || !Starts(attrs.rest, Punct('{')) then Fail
      else
        var inner := ParseItems(attrs.rest[1..], path + [next], 0, acc, true);
        if inner.Fail? || !Starts(inner.rest, Punct('}')) then Fail
        else ParseItems(inner.rest[1..], path, next + 1, inner.value, inside)
    else
      var f := ParseFunc(ts);
      if f.Fail? then Fail else ParseItems(f.rest, path, next, acc + [Located(f.value, path)], inside)
  }

  /** How a level ends: at its closing brace, or at the end of the text. */
  predicate LevelEnd(inside: bool, tail: seq<Token>) {
    if inside then Starts(tail, Punct('}')) else tail == []
  }

  lemma {:induction false} TreesBegin(trees: seq<Tree>, tail: seq<Token>)
    requires GoodTrees(trees) && ItemTail(tail)
    ensures ItemTail(PrintTrees(trees, tail))
    ensures trees != [] ==> PrintTrees(trees, tail) != [] && PrintTrees(trees, tail)[0] != Punct('}')
  {
    if trees != [] && trees[0].Leaf? {
      assert PrintFunc(trees[0].func, PrintTrees(trees[1..], tail))[0] == Word("handshake.func");
    }
  }

  lemma {:induction false} GoodRest(trees: seq<Tree>)
    requires trees != [] && GoodTrees(trees)
    ensures GoodTrees(trees[1..])
    ensures trees[0].Leaf? ==> GoodFunc(trees[0].func)
    ensures trees[0].Block? ==> trees[0].items != [] && GoodTrees(trees[0].items)
  {
    hide GoodFunc;
  }

  /** A function, and the items after it. */
  lemma {:induction false} LeafReads(f: Func, after: seq<Token>, path: seq<nat>, next: nat, acc: seq<Located>,
      inside: bool)
    requires GoodFunc(f) && ItemTail(after)
    ensures ParseItems(PrintFunc(f, after), path, next, acc, inside) ==
              ParseItems(after, path, next, acc + [Located(f, path)], inside)
  {
    FuncRoundTrip(f, after);
    hide ParseFunc, PrintFunc, GoodFunc;
  }

  /** A module block, and the items after it. */
  lemma {:induction false} BlockReads(inner: seq<Token>, after: seq<Token>, path: seq<nat>, next: nat,
      acc: seq<Located>, more: seq<Located>, inside: bool)
    requires ParseItems(inner, path + [next], 0, acc, true) == Done(more, [Punct('}')] + after)
    ensures ParseItems([Word("module"), Punct('{')] + inner, path, next, acc, inside) ==
              ParseItems(after, path, next + 1, more, inside)
  {
    var ts := [Word("module"), Punct('{')] + inner;
    assert ts[1..] == [Punct('{')] + inner && ts[1..][1..] == inner;
    assert ([Punct('}')] + after)[1..] == after;
    assert ParseAttributes(ts[1..]) == Done([], ts[1..]);
    hide ParseAttributes, ParseItems;
    BlockStep(ts, ts[1..], [Punct('}')] + after, path, next, acc, more, inside);
  }

  lemma {:induction false} BlockStep(ts: seq<Token>, open: seq<Token>, close: seq<Token>, path: seq<nat>, next: nat,
      acc: seq<Located>, more: seq<Located>, inside: bool)
    requires Starts(ts, Word("module")) && ParseAttributes(ts[1..]) == Done([], open) && Starts(open, Punct('{'))
    requires ParseItems(open[1..], path + [next], 0, acc, true) == Done(more, close) && Starts(close, Punct('}'))
    ensures ParseItems(ts, path, next, acc, inside) == ParseItems(close[1..], path, next + 1, more, inside)
  {
    hide ParseAttributes, ParseFunc;
  }

  lemma {:induction false} ItemsRoundTrip(trees: seq<Tree>, path: seq<nat>, next: nat, acc: seq<Located>, inside: bool,
      tail: seq<Token>)
    requires GoodTrees(trees) && LevelEnd(inside, tail)
    ensures ParseItems(PrintTrees(trees, tail), path, next, acc, inside) == Done(acc + Flatten(trees, path, next), tail)
    decreases trees
  {
    hide GoodFunc, PrintFunc, ParseFunc, GoodTrees;
    if trees == [] {
      assert acc + [] == acc;
    } else {
      hide ParseItems;
      var more := trees[1..];
      var after := PrintTrees(more, tail);
      GoodRest(trees);
      TreesBegin(more, tail);
      match trees[0]
      case Leaf(f) =>
        LeafReads(f, after, path, next, acc, inside);
        ItemsRoundTrip(more, path, next, acc + [Located(f, path)], inside, tail);
        FlattenOne(trees, path, next, acc, [Located(f, path)], Flatten(more, path, next));
      case Block(items) =>
        var inner := Flatten(items, path + [next], 0);
        ItemsRoundTrip(items, path + [next], 0, acc, true, [Punct('}')] + after);
        BlockReads(PrintTrees(items, [Punct('}')] + after), after, path, next, acc, acc + inner, inside);
        ItemsRoundTrip(more, path, next + 1, acc + inner, inside, tail);
        FlattenOne(trees, path, next, acc, inner, Flatten(more, path, next + 1));
    }
  }

  lemma {:induction false} FlattenOne(trees: seq<Tree>, path: seq<nat>, next: nat, acc: seq<Located>,
      head: seq<Located>, rest: seq<Located>)
    requires trees != []
    requires match trees[0]
             case Leaf(f) => head == [Located(f, path)] && rest == Flatten(trees[1..], path, next)
             case Block(items) =>
               head == Flatten(items, path + [next], 0) && rest == Flatten(trees[1..], path, next + 1)
    ensures acc + head + rest == acc + Flatten(trees, path, next)
  {
    assert Flatten(trees, path, next) == head + rest;
    hide Flatten;
    assert acc + head + rest == acc + (head + rest);
  }

  // ---- the printer finds the nesting again --------------------------------------------

  /** `l` sits below `path`, in a module block numbered `next` or later if in any. */
  predicate Under(l: Located, path: seq<nat>, next: nat) {
    path <= l.path && (|l.path| > |path| ==> l.path[|path|] >= next)
  }

  lemma {:induction false} FlattenUnder(trees: seq<Tree>, path: seq<nat>, next: nat)
    ensures forall l | l in Flatten(trees, path, next) :: Under(l, path, next)
    decreases trees
  {
    if trees != [] {
      match trees[0]
      case Leaf(f) => FlattenUnder(trees[1..], path, next);
      case Block(items) =>
        FlattenUnder(items, path + [next], 0);
        FlattenUnder(trees[1..], path, next + 1);
        forall l | l in Flatten(items, path + [next], 0) ensures Under(l, path, next) {
          assert Under(l, path + [next], 0);
          assert l.path[..|path| + 1] == path + [next];
        }
    }
  }

  lemma {:induction false} FlattenSome(trees: seq<Tree>, path: seq<nat>, next: nat)
    requires GoodTrees(trees) && trees != []
    ensures Flatten(trees, path, next) != []
    decreases trees
  {
    GoodRest(trees);
    hide GoodFunc, GoodTrees;
    if trees[0].Block? {
      FlattenSome(trees[0].items, path + [next], 0);
    }
  }

  /** The functions of a block share its prefix, and the ones after it do not. */
  lemma {:induction false} SharedIs(inner: seq<Located>, rest: seq<Located>, prefix: seq<nat>)
    requires (forall l | l in inner :: prefix <= l.path) && (rest != [] ==> !(prefix <= rest[0].path))
    ensures Shared(inner + rest, prefix) == |inner|
  {
    if inner == [] {
      assert inner + rest == rest;
    } else {
      assert inner[0] in inner;
      SharedIs(inner[1..], rest, prefix);
      assert (inner + rest)[1..] == inner[1..] + rest;
    }
  }

  lemma {:induction false} EmitFlatten(trees: seq<Tree>, path: seq<nat>, next: nat, tail: seq<Token>)
    requires GoodTrees(trees)
    ensures Emit(Flatten(trees, path, next), |path|, tail) == PrintTrees(trees, tail)
    decreases trees
  {
    hide GoodFunc, PrintFunc, GoodTrees;
    if trees != [] {
      GoodRest(trees);
      var more := trees[1..];
      match trees[0]
      case Leaf(f) =>
        EmitFlatten(more, path, next, tail);
        assert Flatten(trees, path, next)[1..] == Flatten(more, path, next);
      case Block(items) =>
        var inner, rest := Flatten(items, path + [next], 0), Flatten(more, path, next + 1);
        FlattenSome(items, path + [next], 0);
        FlattenUnder(items, path + [next], 0);
        FlattenUnder(more, path, next + 1);
        EmitFlatten(more, path, next + 1, tail);
        EmitFlatten(items, path + [next], 0, [Punct('}')] + Emit(rest, |path|, tail));
        hide Emit, Flatten;
        EmitBlock(inner, rest, path, next, tail);
    }
  }

  lemma {:induction false} LaterBlock(l: Located, path: seq<nat>, next: nat)
    requires Under(l, path, next + 1)
    ensures !(path + [next] <= l.path)
  {
    assert (path + [next])[|path|] == next;
    assert |l.path| > |path| ==> l.path[|path|] != next;
  }

  lemma {:induction false} EmitBlock(inner: seq<Located>, rest: seq<Located>, path: seq<nat>, next: nat,
      tail: seq<Token>)
    requires inner != [] && (forall l | l in inner :: Under(l, path + [next], 0))
    requires forall l | l in rest :: Under(l, path, next + 1)
    ensures Emit(inner + rest, |path|, tail)
            == [Word("module"), Punct('{')] + Emit(inner, |path + [next]|, [Punct('}')] + Emit(rest, |path|, tail))
  {
    var fs, prefix := inner + rest, path + [next];
    assert inner[0] in inner;
    if rest != [] {
      assert rest[0] in rest;
      LaterBlock(rest[0], path, next);
    }
    SharedIs(inner, rest, prefix);
    assert fs[0] == inner[0] && fs[0].path[..|path| + 1] == prefix;
    assert fs[..|inner|] == inner && fs[|inner|..] == rest;
  }

  // ---- whole files ------------------------------------------------------------------

  /** `wrap` asks for a module around functions that have none. */
  function PrintModule(fs: seq<Located>, wrap: bool): seq<Token> {
    if fs == [] then [Word("module"), Punct('{'), Punct('}')]
    else if wrap && forall l | l in fs :: l.path == [] then [Word("module"), Punct('{')] + Emit(fs, 0, [Punct('}')])
    else Emit(fs, 0, [])
  }

  function ParseModule(ts: seq<Token>): Parsed<seq<Located>> {
    ParseItems(ts, [], 0, [], false)
  }

  /** Functions whose paths come from a nesting without empty modules, each of which survives. */
  ghost predicate WellFormed(fs: seq<Located>) {
    exists trees :: GoodTrees(trees) && fs == Flatten(trees, [], 0)
  }

  /**
   Printing a well-formed file and reading it back gives the same functions in the same module blocks,
   exactly unless a module was asked for around functions that had none.
   */
  lemma {:induction false} FileRoundTripIff(fs: seq<Located>, wrap: bool)
    requires WellFormed(fs)
    ensures ParseModule(PrintModule(fs, wrap)) == Done(fs, []) <==>
              !(wrap && fs != [] && forall l | l in fs :: l.path == [])
  {
    hide GoodFunc, GoodTrees, ParseItems, Emit;
    var trees :| GoodTrees(trees) && fs == Flatten(trees, [], 0);
    if fs == [] {
      EmptyModule();
    } else if wrap && forall l | l in fs :: l.path == [] {
      WrappedModule(fs, trees);
    } else {
      EmitFlatten(trees, [], 0, []);
      ItemsRoundTrip(trees, [], 0, [], false, []);
      assert [] + fs == fs;
    }
  }

  lemma {:induction false} EmptyModule()
    ensures ParseModule([Word("module"), Punct('{'), Punct('}')]) == Done([], [])
  {
    var inner := [Punct('}')];
    assert inner == [Punct('}')] + [];
    assert ParseItems(inner, [0], 0, [], true) == Done([], inner);
    assert [] + [0] == [0];
    BlockReads(inner, [], [], 0, [], [], false);
    assert [Word("module"), Punct('{')] + inner == [Word("module"), Punct('{'), Punct('}')];
  }

  lemma {:induction false} NothingMore(acc: seq<Located>)
    ensures ParseItems([], [], 1, acc, false) == Done(acc, [])
  {
  }

  lemma {:induction false} NotUnder(l: Located, moved: seq<Located>)
    requires l.path == [] && forall m | m in moved :: Under(m, [0], 0)
    ensures l !in moved
  {
  }

  /** A module put round the functions is read back as one. */
  lemma {:induction false} WrappedModule(fs: seq<Located>, trees: seq<Tree>)
    requires GoodTrees(trees) && fs == Flatten(trees, [], 0) && fs != [] && forall l | l in fs :: l.path == []
    ensures ParseModule([Word("module"), Punct('{')] + Emit(fs, 0, [Punct('}')])) != Done(fs, [])
  {
    hide GoodFunc, GoodTrees, Emit, Flatten, PrintTrees, ParseItems;
    var close := [Punct('}')];
    assert close == [Punct('}')] + [];
    EmitFlatten(trees, [], 0, close);
    assert [] + [0] == [0];
    ItemsRoundTrip(trees, [0], 0, [], true, close);
    var moved := Flatten(trees, [0], 0);
    assert [] + moved == moved;
    BlockReads(PrintTrees(trees, close), [], [], 0, [], moved, false);
    NothingMore(moved);
    FlattenUnder(trees, [0], 0);
    assert fs[0] in fs;
    NotUnder(fs[0], moved);
  }
}
