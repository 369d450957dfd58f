/**
 Who produces and who reads each value of a function's body (`_resolve` in bdc/hs/parse.py). A value may be used
 before the statement that defines it.
 */
module Resolution {
  import opened Statements
  import A = Attributes

  /** An argument, or one result of a statement. */
  datatype Source = FromArg(i: nat) | FromResult(node: nat, k: nat)

  datatype Found = Nobody | By(source: Source)

  // ---- what the tables hold -------------------------------------------------------

  /** The last argument called `name`. */
  function ArgNamed(names: seq<string>, name: string): Found {
    if names == [] then Nobody
    else if names[|names| - 1] == name then By(FromArg(|names| - 1))
    else ArgNamed(names[..|names| - 1], name)
  }

  /** The last of `results`, those of statement `node`, that is `r`. */
  function ResultNamed(results: seq<Ref>, node: nat, r: Ref): Found {
    if results == [] then Nobody
    else if results[|results| - 1] == r then By(FromResult(node, |results| - 1))
    else ResultNamed(results[..|results| - 1], node, r)
  }

  /** The last result of `body` that is `r`. */
  function DefinedIn(body: seq<Stmt>, r: Ref): Found {
    if body == [] then Nobody
    else
      var n := |body| - 1;
      var here := ResultNamed(body[n].results, n, r);
      if here.By? then here else DefinedIn(body[..n], r)
  }

  /** Results take the place of arguments of the same name; the empty name binds nothing. */
  function Defined(names: seq<string>, body: seq<Stmt>, r: Ref): Found {
    var result := DefinedIn(body, r);
    if result.By? || r.index != Whole || r.base == "" then result else ArgNamed(names, r.base)
  }

  /** Who produces `r`: `%v#0` may also stand for the whole of `%v`. */
  function ProducedBy(names: seq<string>, body: seq<Stmt>, r: Ref): Found {
    var whole := Defined(names, body, r);
    if whole.By? || r.index != Part(0) then whole else Defined(names, body, Ref(r.base, Whole))
  }

  function ItemRefs(items: seq<Item>): seq<Ref> {
    if items == [] then []
    else (match items[0] case Operand(r, _) => [r] case Literal(_) => []) + ItemRefs(items[1..])
  }

  /** The values a statement reads, in order. */
  function Operands(args: seq<Arg>): seq<Ref> {
    if args == [] then []
    else (match args[0] case Segment(_, items, _) => ItemRefs(items) case Inline(_, _, _) => []) + Operands(args[1..])
  }

  /** In a group: each value, with its type or without, and nothing for a bare token. */
  lemma {:induction false} ItemRefsAre(items: seq<Item>, r: Ref, suffix: seq<A.Token>, t: A.Token)
    ensures ItemRefs([]) == []
    ensures ItemRefs(items + [Operand(r, suffix)]) == ItemRefs(items) + [r]
    ensures ItemRefs(items + [Literal(t)]) == ItemRefs(items)
  {
    if items == [] {
      assert ItemRefs([Operand(r, suffix)][1..]) == [] && ItemRefs([Literal(t)][1..]) == [];
    } else {
      ItemRefsAre(items[1..], r, suffix, t);
      assert (items + [Operand(r, suffix)])[1..] == items[1..] + [Operand(r, suffix)];
      assert (items + [Literal(t)])[1..] == items[1..] + [Literal(t)];
    }
  }

  /** In a statement: those of each group in turn, and nothing for an attribute. */
  lemma {:induction false} OperandsAre(args: seq<Arg>, wrap: Wrap, items: seq<Item>, comma: bool, key: string,
      v: A.Attr)
    ensures Operands([]) == []
    ensures Operands(args + [Segment(wrap, items, comma)]) == Operands(args) + ItemRefs(items)
    ensures Operands(args + [Inline(key, v, comma)]) == Operands(args)
  {
    if args == [] {
      assert Operands([Segment(wrap, items, comma)][1..]) == [] && Operands([Inline(key, v, comma)][1..]) == [];
    } else {
      OperandsAre(args[1..], wrap, items, comma, key, v);
      assert (args + [Segment(wrap, items, comma)])[1..] == args[1..] + [Segment(wrap, items, comma)];
      assert (args + [Inline(key, v, comma)])[1..] == args[1..] + [Inline(key, v, comma)];
    }
  }

  predicate StmtResolves(names: seq<string>, body: seq<Stmt>, i: nat)
    requires i < |body|
  {
    forall r | r in Operands(body[i].args) :: ProducedBy(names, body, r).By?
  }

  /** Every value read has a producer. */
  predicate Resolves(names: seq<string>, body: seq<Stmt>) {
    forall i: nat | i < |body| :: StmtResolves(names, body, i)
  }

  /** Where `refs`, those of statement `node`, read `r`. */
  function ReadsIn(refs: seq<Ref>, node: nat, r: Ref): seq<(nat, nat)> {
    if refs == [] then []
    else
      ReadsIn(refs[..|refs| - 1], node, r) + if refs[|refs| - 1] == r then [(node, |refs| - 1)] else []
  }

  /** Where `body` reads `r`: statement and operand, in order. */
  function ReadersOf(body: seq<Stmt>, r: Ref): seq<(nat, nat)> {
    if body == [] then []
    else ReadersOf(body[..|body| - 1], r) + ReadsIn(Operands(body[|body| - 1].args), |body| - 1, r)
  }

  // ---- building them --------------------------------------------------------------

  type Sources = map<Ref, Source>

  function Get(m: Sources, r: Ref): Found {
    if r in m then By(m[r]) else Nobody
  }

  type Readers = map<Ref, seq<(nat, nat)>>

  function ReadAt(m: Readers, r: Ref): seq<(nat, nat)> {
    if r in m then m[r] else []
  }

  /** One more argument. */
  function WithArg(names: seq<string>, i: nat, r: Ref): Found
    requires i < |names|
  {
    if r == Ref(names[i], Whole) && names[i] != "" then By(FromArg(i)) else Defined(names[..i], [], r)
  }

  method BindArgs(names: seq<string>) returns (producer: Sources)
    ensures forall r :: Get(producer, r) == Defined(names, [], r)
  {
    producer := map[];
    for i := 0 to |names|
      invariant forall r :: Get(producer, r) == Defined(names[..i], [], r)
    {
      forall r ensures Defined(names[..i + 1], [], r) == WithArg(names, i, r) {
        assert names[..i + 1][..i] == names[..i];
      }
      ghost var before := producer;
      if names[i] != "" {
        producer := producer[Ref(names[i], Whole) := FromArg(i)];
      }
      forall r ensures Get(producer, r) == WithArg(names, i, r) {
        assert Get(before, r) == Defined(names[..i], [], r);
      }
    }
    assert names[..|names|] == names;
  }

  method BindResults(names: seq<string>, body: seq<Stmt>) returns (producer: Sources)
    ensures forall r :: Get(producer, r) == Defined(names, body, r)
  {
    producer := BindArgs(names);
    for n := 0 to |body|
      invariant forall r :: Get(producer, r) == Defined(names, body[..n], r)
    {
      var results := body[n].results;
      ghost var before := producer;
      for k := 0 to |results|
        invariant forall r ::
            Get(producer, r) == (var here := ResultNamed(results[..k], n, r); if here.By? then here else Get(before, r))
      {
        assert results[..k + 1][..k] == results[..k];
        producer := producer[results[k] := FromResult(n, k)];
      }
      assert results[..|results|] == results;
      assert body[..n + 1][..n] == body[..n];
    }
    assert body[..|body|] == body;
  }

  /** What the alias says of `r` once the names of `todo` are still to be looked at. */
  function Aliased(producer: Sources, todo: set<Ref>, r: Ref): Found {
    if r in producer || r.index != Part(0) || Ref(r.base, Whole) in todo then Get(producer, r)
    else Get(producer, Ref(r.base, Whole))
  }

  /** A producer for `%v#0` wherever `%v` has one and `%v#0` has none. */
  method AddAliases(producer: Sources) returns (more: Sources)
    ensures forall r :: Get(more, r) == Aliased(producer, {}, r)
  {
    more := producer;
    var todo := producer.Keys;
    while todo != {}
      invariant todo <= producer.Keys
      invariant forall r :: Get(more, r) == Aliased(producer, todo, r)
    {
      var name :| name in todo;
      var alias := Ref(name.base, Part(0));
      assert Get(more, alias) == Aliased(producer, todo, alias);
      forall r ensures Aliased(producer, todo - {name}, r) ==
          if name.index == Whole && r == alias
            && alias !in producer then By(producer[name]) else Aliased(producer, todo, r)
      {
      }
      todo := todo - {name};
      if name.index == Whole && alias !in more {
        more := more[alias := producer[name]];
      }
    }
  }

  /** The operands `refs` of statement `n` as readers of their producers, unless one has none. */
  method AddReads(names: seq<string>, body: seq<Stmt>, producer: Sources, n: nat, refs: seq<Ref>, consumers: Readers)
    returns (ok: bool, more: Readers)
    requires forall r :: Get(producer, r) == ProducedBy(names, body, r)
    ensures ok <==> forall r | r in refs :: ProducedBy(names, body, r).By?
    ensures ok ==> forall r :: ReadAt(more, r) == ReadAt(consumers, r) + ReadsIn(refs, n, r)
  {
    hide ProducedBy, ReadAt, ReadsIn, Get;
    more := consumers;
    NoReads(n);
    for k := 0 to |refs|
      invariant forall r | r in refs[..k] :: ProducedBy(names, body, r).By?
      invariant forall r :: ReadAt(more, r) == ReadAt(consumers, r) + ReadsIn(refs[..k], n, r)
    {
      var r := refs[k];
      assert refs[..k + 1] == refs[..k] + [r];
      GetIff(producer, r);
      if r !in producer {
        return false, more;
      }
      ghost var before := more;
      more := more[r := ReadAt(more, r) + [(n, k)]];
      forall q ensures ReadAt(more, q) == ReadAt(consumers, q) + ReadsIn(refs[..k + 1], n, q) {
        AddsRead(before, r, (n, k), q);
        ReadNext(refs, n, k, q, ReadAt(consumers, q));
      }
    }
    assert refs[..|refs|] == refs;
    ok := true;
  }

  lemma {:induction false} NoReads(n: nat)
    ensures forall r :: ReadsIn([], n, r) == []
  {
  }

  lemma {:induction false} GetIff(producer: Sources, r: Ref)
    ensures r in producer <==> Get(producer, r).By?
  {
  }

  lemma {:induction false} AddsRead(m: Readers, r: Ref, at: (nat, nat), q: Ref)
    ensures ReadAt(m[r := ReadAt(m, r) + [at]], q) == ReadAt(m, q) + if r == q then [at] else []
  {
  }

  lemma {:induction false} ReadNext(refs: seq<Ref>, n: nat, k: nat, q: Ref, before: seq<(nat, nat)>)
    requires k < |refs|
    ensures before + ReadsIn(refs[..k + 1], n, q)
            == (before + ReadsIn(refs[..k], n, q)) + if refs[k] == q then [(n, k)] else []
  {
    assert refs[..k + 1][..k] == refs[..k];
  }

  /** The producer of every name. */
  method Producers(names: seq<string>, body: seq<Stmt>) returns (producer: Sources)
    ensures forall r :: Get(producer, r) == ProducedBy(names, body, r)
  {
    var defined := BindResults(names, body);
    producer := AddAliases(defined);
    hide Defined;
  }

  /** The producers and the readers of a body, unless it reads a value nobody produces. */
  method Resolve(names: seq<string>, body: seq<Stmt>) returns (ok: bool, producer: Sources, consumers: Readers)
    ensures ok <==> Resolves(names, body)
    ensures forall r :: Get(producer, r) == ProducedBy(names, body, r)
    ensures ok ==> forall r :: ReadAt(consumers, r) == ReadersOf(body, r)
  {
    hide ProducedBy, StmtResolves, ReadersOf, Get, ReadsIn;
    producer := Producers(names, body);
    consumers := map[];
    NothingRead();
    for n := 0 to |body|
      invariant forall i: nat | i < n :: StmtResolves(names, body, i)
      invariant forall r :: ReadAt(consumers, r) == ReadersOf(body[..n], r)
    {
      hide ReadAt, Resolves;
      ghost var before := consumers;
      ok, consumers := AddReads(names, body, producer, n, Operands(body[n].args), consumers);
      ResolvesIff(names, body, n);
      if !ok {
        NotResolved(names, body, n);
        return;
      }
      forall r ensures ReadAt(consumers, r) == ReadersOf(body[..n + 1], r) {
        ReadersNext(body, n, r);
        assert ReadAt(before, r) == ReadersOf(body[..n], r);
      }
    }
    assert body[..|body|] == body;
    ok := true;
  }

  lemma {:induction false} NothingRead()
    ensures forall r :: ReadersOf([], r) == []
  {
  }

  lemma {:induction false} ReadersNext(body: seq<Stmt>, n: nat, r: Ref)
    requires n < |body|
    ensures ReadersOf(body[..n + 1], r) == ReadersOf(body[..n], r) + ReadsIn(Operands(body[n].args), n, r)
  {
    assert body[..n + 1][..n] == body[..n];
  }

  lemma {:induction false} ResolvesIff(names: seq<string>, body: seq<Stmt>, n: nat)
    requires n < |body|
    ensures StmtResolves(names, body, n) <==> forall r | r in Operands(body[n].args) :: ProducedBy(names, body, r).By?
  {
  }

  lemma {:induction false} NotResolved(names: seq<string>, body: seq<Stmt>, n: nat)
    requires n < |body| && !StmtResolves(names, body, n)
    ensures !Resolves(names, body)
  {
  }
}
