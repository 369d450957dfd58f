/**
 Types and the type clause of a statement: how far the reader steps (`_try_type_atom`, `_try_type_list`,
 `_parse_type_clause` in bdc/hs/parse.py), and that it takes exactly what is written as one.
 */
module TypeClauses {
  import opened Attributes

  // ---- types ----------------------------------------------------------------------

  /** How many tokens a type takes; none if there is no type here. */
  function AtomLength(ts: seq<Token>): (n: Count)
    ensures n.Of? ==> n.n <= |ts|
  {
    if ts == [] then Of(0)
    else if ts[0] in {Punct('<'), Punct('('), Punct('[')} then GroupLength(ts)
    else if ts[0].Bang? then (if Starts(ts[1..], Punct('<')) then More(GroupLength(ts[1..])) else Of(1))
    else if ts[0].Word? && Starts(ts[1..], Punct('<')) then More(GroupLength(ts[1..]))
    else if ts[0] == Word("_") then Of(1)
    else Of(0)
  }

  /** Types separated by commas; a comma calls for another. */
  function TypesLength(ts: seq<Token>): (n: Count)
    ensures n.Of? ==> n.n <= |ts|
  {
    var n := AtomLength(ts);
    if n.Bad? || n.n == 0 || !Starts(ts[n.n..], Punct(',')) then n
    else
      var m := TypesLength(ts[n.n + 1..]);
      if m.Bad? || m.n == 0 then Bad else Of(n.n + 1 + m.n)
  }

  /** `types [to types] [-> types]`, the clause after the colon. */
  function ClauseLength(ts: seq<Token>): (n: Count)
    ensures n.Of? ==> n.n <= |ts|
  {
    var n := TypesLength(ts);
    if n.Bad? then Bad
    else
      var m := Marked(ts[n.n..], Word("to"));
      if m.Bad? then Bad
      else
        var k := Marked(ts[n.n + m.n..], Arrow);
        if k.Bad? then Bad else Of(n.n + m.n + k.n)
  }

  /** Types introduced by `mark`, if it is there. */
  function Marked(ts: seq<Token>, mark: Token): (n: Count)
    ensures n.Of? ==> n.n <= |ts|
  {
    if !Starts(ts, mark) then Of(0)
    else More(TypesLength(ts[1..]))
  }

  /** What cannot continue a type clause. */
  predicate EndsTypes(rest: seq<Token>) {
    rest == [] ||
    (rest[0] !in {Punct('<'), Punct('('), Punct('['), Punct(','), Arrow, Word("to"), Word("_")} && !rest[0].Bang?
     && !(rest[0].Word? && Starts(rest[1..], Punct('<'))))
  }

  lemma {:induction false} AtomStands(ts: seq<Token>, rest: seq<Token>)
    requires AtomLength(ts).Of?
    requires rest == [] || rest[0] != Punct('<')
    requires ts == [] ==> AtomLength(rest) == Of(0)
    ensures AtomLength(ts + rest) == AtomLength(ts)
  {
    if ts == [] {
      assert ts + rest == rest;
    } else {
      assert (ts + rest)[1..] == ts[1..] + rest;
      if ts[0] in {Punct('<'), Punct('('), Punct('[')} {
        GroupGrows(ts, rest);
      } else if Starts(ts[1..], Punct('<')) && (ts[0].Bang? || ts[0].Word?) {
        GroupGrows(ts[1..], rest);
      }
    }
  }

  lemma {:induction false} GroupGrows(ts: seq<Token>, rest: seq<Token>)
    requires GroupLength(ts).Of?
    ensures GroupLength(ts + rest) == GroupLength(ts)
  {
    assert (ts + rest)[1..] == ts[1..] + rest;
    ScanExtends(ts[1..], rest, [ts[0].c]);
  }

  lemma {:induction false} DropFirst(ts: seq<Token>, rest: seq<Token>, n: nat)
    requires n <= |ts|
    ensures (ts + rest)[n..] == ts[n..] + rest
  {
  }

  /** What neither continues a list of types nor belongs to the type before it. */
  predicate StopsTypes(rest: seq<Token>) {
    rest == [] || rest[0] !in {Punct('<'), Punct(',')}
  }

  lemma {:induction false} TypesStand(ts: seq<Token>, rest: seq<Token>)
    requires TypesLength(ts).Of? && StopsTypes(rest) && (ts == [] ==> AtomLength(rest) == Of(0))
    ensures TypesLength(ts + rest) == TypesLength(ts)
    decreases |ts|
  {
    var n := AtomLength(ts);
    AtomStands(ts, rest);
    hide AtomLength;
    if n.n > 0 {
      DropFirst(ts, rest, n.n);
      if Starts(ts[n.n..], Punct(',')) {
        DropFirst(ts, rest, n.n + 1);
        NothingCounts();
        TypesStand(ts[n.n + 1..], rest);
        TypesStep(ts, rest, n.n);
      }
    }
  }

  lemma {:induction false} NothingCounts()
    ensures TypesLength([]) == Of(0)
  {
  }

  /** Past a comma the lengths with and without what follows agree, if they do after it. */
  lemma {:induction false} TypesStep(ts: seq<Token>, rest: seq<Token>, n: nat)
    requires 0 < n < |ts| && AtomLength(ts) == Of(n) && AtomLength(ts + rest) == Of(n) && ts[n] == Punct(',')
    requires (ts + rest)[n + 1..] == ts[n + 1..] + rest && TypesLength(ts[n + 1..] + rest) == TypesLength(ts[n + 1..])
    ensures TypesLength(ts + rest) == TypesLength(ts)
  {
    hide AtomLength;
    assert (ts + rest)[n..][0] == Punct(',') && ts[n..][0] == Punct(',');
  }

  lemma {:induction false} EndsAtom(rest: seq<Token>)
    requires EndsTypes(rest)
    ensures AtomLength(rest) == Of(0) && StopsTypes(rest)
  {
  }

  lemma {:induction false} MarkedStands(ts: seq<Token>, mark: Token, rest: seq<Token>)
    requires mark in {Word("to"), Arrow} && Marked(ts, mark).Of? && EndsTypes(rest)
    ensures Marked(ts + rest, mark) == Marked(ts, mark)
  {
    if Starts(ts, mark) {
      assert (ts + rest)[1..] == ts[1..] + rest;
      EndsAtom(rest);
      TypesStand(ts[1..], rest);
    } else if ts == [] {
      assert ts + rest == rest;
    }
  }

  /** What ends a type clause does not change where it ends. */
  lemma {:induction false} ClauseStands(ts: seq<Token>, rest: seq<Token>)
    requires ClauseLength(ts).Of? && EndsTypes(rest)
    ensures ClauseLength(ts + rest) == ClauseLength(ts)
  {
    hide TypesLength, Marked, EndsTypes;
    var n := TypesLength(ts);
    EndsAtom(rest);
    TypesStand(ts, rest);
    DropFirst(ts, rest, n.n);
    MarkedStands(ts[n.n..], Word("to"), rest);
    var m := Marked(ts[n.n..], Word("to"));
    DropFirst(ts, rest, n.n + m.n);
    MarkedStands(ts[n.n + m.n..], Arrow, rest);
  }

  // ---- types as they are written ------------------------------------------------------

  /**
   A group in angle brackets, parentheses or square brackets; `!name` or `!name<...>`; `name<...>`; or `_`.
   */
  ghost predicate IsAtom(a: seq<Token>) {
    a != [] &&
    (Written(Angled, a) || Written(Paren, a) || Written(Squared, a)
     || (a[0].Bang? && (|a| == 1 || Written(Angled, a[1..])))
     || (a[0].Word? && Written(Angled, a[1..]))
     || a == [Word("_")])
  }

  ghost predicate AreAtoms(atoms: seq<seq<Token>>) {
    forall a | a in atoms :: IsAtom(a)
  }

  /** Types with commas between them. */
  function Separated(atoms: seq<seq<Token>>): seq<Token> {
    if atoms == [] then []
    else if |atoms| == 1 then atoms[0]
    else atoms[0] + ([Punct(',')] + Separated(atoms[1..]))
  }

  /** A mark with types after it, or nothing at all. */
  datatype Part = Absent | Present(types: seq<seq<Token>>)

  function PartTokens(mark: Token, p: Part): seq<Token> {
    match p
    case Absent => []
    case Present(types) => [mark] + Separated(types)
  }

  /** `types`, `types to types`, `types -> types` or `types to types -> types`. */
  datatype Clause = Clause(types: seq<seq<Token>>, to: Part, arrow: Part)

  function ClauseTokens(c: Clause): seq<Token> {
    Separated(c.types) + (PartTokens(Word("to"), c.to) + PartTokens(Arrow, c.arrow))
  }

  ghost predicate GoodPart(p: Part) {
    p.Present? ==> AreAtoms(p.types)
  }

  /** Without types before it, `to <...>` would be one type. */
  ghost predicate GoodClause(c: Clause) {
    && AreAtoms(c.types) && GoodPart(c.to) && GoodPart(c.arrow)
    && (c.types == [] && c.to.Present? && c.to.types != [] ==> !Starts(c.to.types[0], Punct('<')))
  }

  ghost predicate IsClause(ts: seq<Token>) {
    exists c :: GoodClause(c) && ts == ClauseTokens(c)
  }

  /** The reader steps over all of what is written as a type, and over nothing else. */
  lemma {:induction false} AtomIff(a: seq<Token>)
    requires a != []
    ensures AtomLength(a) == Of(|a|) <==> IsAtom(a)
  {
    GroupFrom(a);
    GroupFrom(a[1..]);
    hide Written, GroupLength;
  }

  /** Which kind of group it is shows in its first token. */
  lemma {:induction false} GroupFrom(g: seq<Token>)
    ensures forall b :: Written(b, g) <==> g != [] && g[0] == Opening(b) && GroupLength(g) == Of(|g|)
  {
    GroupIff(g);
    forall b | Written(b, g) ensures g != [] && g[0] == Opening(b) && GroupLength(g) == Of(|g|) {
      WrittenReads(b, g, []);
    }
  }

  lemma {:induction false} SeparatedReads(atoms: seq<seq<Token>>)
    requires AreAtoms(atoms)
    ensures TypesLength(Separated(atoms)) == Of(|Separated(atoms)|)
    ensures atoms != [] ==> Separated(atoms) != [] && Separated(atoms)[0] == atoms[0][0]
  {
    if atoms == [] {
      NothingCounts();
    } else {
      var a := atoms[0];
      assert a in atoms && IsAtom(a);
      AtomIff(a);
      hide IsAtom, AtomLength;
      if |atoms| > 1 {
        var more := Separated(atoms[1..]);
        SeparatedReads(atoms[1..]);
        AtomStands(a, [Punct(',')] + more);
        CommaNext(a, more);
      } else {
        assert a[|a|..] == [];
      }
    }
  }

  lemma {:induction false} CommaNext(a: seq<Token>, more: seq<Token>)
    requires a != [] && more != [] && TypesLength(more) == Of(|more|)
    requires AtomLength(a + ([Punct(',')] + more)) == Of(|a|)
    ensures TypesLength(a + ([Punct(',')] + more)) == Of(|a| + 1 + |more|)
  {
    hide AtomLength;
    var ts := a + ([Punct(',')] + more);
    assert ts[|a|..] == [Punct(',')] + more && ts[|a| + 1..] == more;
  }

  lemma {:induction false} TypesUnfold(ts: seq<Token>, n: nat)
    requires TypesLength(ts) == Of(n)
    ensures AtomLength(ts).Of? && var k := AtomLength(ts).n;
            if k == 0 then n == 0
            else if !Starts(ts[k..], Punct(',')) then n == k
            else n > k + 1 && TypesLength(ts[k + 1..]) == Of(n - k - 1)
  {
    hide AtomLength;
  }

  lemma {:induction false} SeparatedMore(a: seq<Token>, more: seq<seq<Token>>)
    requires IsAtom(a) && AreAtoms(more)
    ensures AreAtoms([a] + more)
    ensures more != [] ==> Separated([a] + more) == a + ([Punct(',')] + Separated(more))
  {
    assert ([a] + more)[1..] == more;
    hide IsAtom;
  }

  lemma {:induction false} NoTypes()
    ensures AreAtoms([]) && Separated([]) == [] && TypesLength([]) == Of(0)
  {
  }

  /** What is stepped over as a list of types is one. */
  lemma {:induction false} TypesAreSeparated(ts: seq<Token>, n: nat) returns (atoms: seq<seq<Token>>)
    requires TypesLength(ts) == Of(n)
    ensures AreAtoms(atoms) && n <= |ts| && ts[..n] == Separated(atoms)
    decreases |ts|
  {
    hide *;
    TypesUnfold(ts, n);
    var k := AtomLength(ts).n;
    if k == 0 {
      NoTypes();
      return [];
    }
    AtomPrefix(ts, k);
    AtomIff(ts[..k]);
    if Starts(ts[k..], Punct(',')) {
      CommaAt(ts, k);
      var more := TypesAreSeparated(ts[k + 1..], n - k - 1);
      TypesFollow(ts, k, n, more);
      return [ts[..k]] + more;
    }
    OneType(ts[..k]);
    return [ts[..k]];
  }

  lemma {:induction false} CommaAt(ts: seq<Token>, k: nat)
    requires k <= |ts| && Starts(ts[k..], Punct(','))
    ensures k < |ts| && ts[k] == Punct(',')
  {
  }

  lemma {:induction false} OneType(a: seq<Token>)
    requires IsAtom(a)
    ensures AreAtoms([a]) && Separated([a]) == a
  {
    hide IsAtom;
  }

  lemma {:induction false} TypesFollow(ts: seq<Token>, k: nat, n: nat, more: seq<seq<Token>>)
    requires k + 1 < n <= |ts| && ts[k] == Punct(',') && IsAtom(ts[..k])
    requires AreAtoms(more) && ts[k + 1..][..n - k - 1] == Separated(more)
    ensures AreAtoms([ts[..k]] + more) && ts[..n] == Separated([ts[..k]] + more)
  {
    NoTypes();
    SeparatedMore(ts[..k], more);
    hide IsAtom, AreAtoms, Separated;
    assert ts[..n] == ts[..k] + ([Punct(',')] + ts[k + 1..][..n - k - 1]);
  }

  lemma {:induction false} AtomPrefix(ts: seq<Token>, k: nat)
    requires AtomLength(ts) == Of(k) && k > 0
    ensures AtomLength(ts[..k]) == Of(k)
  {
    if ts[0] in {Punct('<'), Punct('('), Punct('[')} {
      GroupPrefix(ts, k);
    } else if Starts(ts[1..], Punct('<')) && (ts[0].Bang? || ts[0].Word?) {
      GroupPrefix(ts[1..], k - 1);
      assert ts[1..][..k - 1] == ts[..k][1..];
    }
  }

  /** The three steps of a clause, each of which ends where its part does. */
  lemma {:induction false} ClauseSteps(types: seq<Token>, to: seq<Token>, arrow: seq<Token>)
    requires TypesLength(types + (to + arrow)) == Of(|types|)
    requires Marked(to + arrow, Word("to")) == Of(|to|) && Marked(arrow, Arrow) == Of(|arrow|)
    ensures ClauseLength(types + (to + arrow)) == Of(|types| + |to| + |arrow|)
  {
    hide TypesLength, Marked;
    assert (types + (to + arrow))[|types|..] == to + arrow;
    assert (types + (to + arrow))[|types| + |to|..] == arrow;
  }

  /** A written clause is stepped over to its end. */
  lemma {:induction false} ClauseReads(c: Clause)
    requires GoodClause(c)
    ensures ClauseLength(ClauseTokens(c)) == Of(|ClauseTokens(c)|)
  {
    var to, arrow := PartTokens(Word("to"), c.to), PartTokens(Arrow, c.arrow);
    SeparatedReads(c.types);
    PartReads(Word("to"), c.to, arrow);
    PartReads(Arrow, c.arrow, []);
    PartsStop(c);
    assert arrow + [] == arrow;
    hide TypesLength, Marked, AtomLength, Separated, PartTokens, StopsTypes, GoodClause, ClauseLength;
    TypesStand(Separated(c.types), to + arrow);
    ClauseSteps(Separated(c.types), to, arrow);
  }

  lemma {:induction false} MarkedFrom(mark: Token, types: seq<Token>, rest: seq<Token>)
    requires TypesLength(types + rest) == Of(|types|)
    ensures Marked([mark] + types + rest, mark) == Of(1 + |types|)
  {
    hide TypesLength;
    assert ([mark] + types + rest)[1..] == types + rest;
  }

  lemma {:induction false} PartReads(mark: Token, p: Part, rest: seq<Token>)
    requires GoodPart(p) && (mark == Word("to") || mark == Arrow)
    requires rest == [] || (mark == Word("to") && rest[0] == Arrow)
    ensures Marked(PartTokens(mark, p) + rest, mark) == Of(|PartTokens(mark, p)|)
  {
    if p.Present? {
      var types := Separated(p.types);
      SeparatedReads(p.types);
      assert AtomLength(rest) == Of(0) && StopsTypes(rest);
      hide Separated, AreAtoms, TypesLength, AtomLength, StopsTypes, Marked;
      TypesStand(types, rest);
      MarkedFrom(mark, types, rest);
    } else {
      assert PartTokens(mark, p) + rest == rest;
    }
  }

  /** `to` before anything but an angle bracket is no type. */
  lemma {:induction false} ToIsNoType(inside: seq<Token>)
    ensures !Starts(inside, Punct('<')) ==> AtomLength([Word("to")] + inside) == Of(0)
  {
    hide GroupLength;
    assert ([Word("to")] + inside)[1..] == inside;
  }

  lemma {:induction false} ArrowIsNoType(c: Clause)
    ensures AtomLength(PartTokens(Arrow, c.arrow)) == Of(0)
  {
    hide GroupLength, Separated;
  }

  lemma {:induction false} TypesBegin(atoms: seq<seq<Token>>, arrow: seq<Token>)
    requires AreAtoms(atoms) && (arrow != [] ==> arrow[0] == Arrow)
    ensures Starts(Separated(atoms) + arrow, Punct('<')) ==> atoms != [] && Starts(atoms[0], Punct('<'))
  {
    SeparatedReads(atoms);
    if atoms != [] {
      assert atoms[0] in atoms;
      hide Separated, TypesLength, IsAtom;
      assert (Separated(atoms) + arrow)[0] == atoms[0][0];
      assert atoms[0] != [];
    } else {
      assert [] + arrow == arrow;
    }
  }

  lemma {:induction false} PartsStop(c: Clause)
    requires GoodClause(c)
    ensures var rest := PartTokens(Word("to"), c.to) + PartTokens(Arrow, c.arrow);
            StopsTypes(rest) && (Separated(c.types) == [] ==> AtomLength(rest) == Of(0))
  {
    var arrow := PartTokens(Arrow, c.arrow);
    SeparatedReads(c.types);
    ArrowIsNoType(c);
    hide AreAtoms, Separated, AtomLength, TypesLength;
    if c.to.Present? {
      var inside := Separated(c.to.types) + arrow;
      ToIsNoType(inside);
      TypesBegin(c.to.types, arrow);
      assert PartTokens(Word("to"), c.to) + arrow == [Word("to")] + inside;
    } else {
      assert [] + arrow == arrow;
    }
  }

  lemma {:induction false} PartIs(ts: seq<Token>, mark: Token, n: nat) returns (p: Part)
    requires Marked(ts, mark) == Of(n)
    ensures GoodPart(p) && n <= |ts| && ts[..n] == PartTokens(mark, p)
    ensures p.Present? <==> Starts(ts, mark)
  {
    if Starts(ts, mark) {
      var types := TypesAreSeparated(ts[1..], n - 1);
      p := Present(types);
      assert ts[..n] == [mark] + ts[1..][..n - 1];
    } else {
      p := Absent;
    }
  }

  /** The reader steps over all of what is written as a clause, and over nothing else. */
  lemma {:induction false} ClauseIff(ts: seq<Token>)
    ensures ClauseLength(ts) == Of(|ts|) <==> IsClause(ts)
  {
    if c :| GoodClause(c) && ts == ClauseTokens(c) {
      ClauseReads(c);
    }
    if ClauseLength(ts) == Of(|ts|) {
      ClauseIs(ts, |ts|);
      assert ts[..|ts|] == ts;
    }
  }

  lemma {:induction false} ClauseUnfold(ts: seq<Token>, k: nat) returns (n: nat, m: nat)
    requires ClauseLength(ts) == Of(k)
    ensures n + m <= k <= |ts| && TypesLength(ts) == Of(n) && Marked(ts[n..], Word("to")) == Of(m)
    ensures Marked(ts[n + m..], Arrow) == Of(k - n - m)
  {
    hide TypesLength, Marked;
    n := TypesLength(ts).n;
    m := Marked(ts[n..], Word("to")).n;
  }

  /** What is stepped over as a clause is one. */
  lemma {:induction false} ClauseIs(ts: seq<Token>, k: nat)
    requires ClauseLength(ts) == Of(k)
    ensures k <= |ts| && IsClause(ts[..k])
  {
    hide *;
    var n, m := ClauseUnfold(ts, k);
    var types := TypesAreSeparated(ts, n);
    var to := PartIs(ts[n..], Word("to"), m);
    var arrow := PartIs(ts[n + m..], Arrow, k - n - m);
    assert ts[..k] == ts[..n] + (ts[n..][..m] + ts[n + m..][..k - n - m]);
    ToStandsAlone(ts, types, to, n, m);
    Assembled(ts[..k], Clause(types, to, arrow));
  }

  lemma {:induction false} Assembled(ts: seq<Token>, c: Clause)
    requires AreAtoms(c.types) && GoodPart(c.to) && GoodPart(c.arrow)
    requires ts == Separated(c.types) + (PartTokens(Word("to"), c.to) + PartTokens(Arrow, c.arrow))
    requires c.types == [] && c.to.Present? && c.to.types != [] ==> !Starts(c.to.types[0], Punct('<'))
    ensures IsClause(ts)
  {
    hide Separated, PartTokens, AreAtoms, GoodPart;
    assert GoodClause(c) && ts == ClauseTokens(c);
  }

  lemma {:induction false} NoTypeAtTo(ts: seq<Token>)
    requires Starts(ts, Word("to")) && TypesLength(ts) == Of(0)
    ensures !Starts(ts[1..], Punct('<'))
  {
    hide GroupLength;
  }

  /** A type that begins after `to` with an angle bracket would have been read together with it. */
  lemma {:induction false} ToStandsAlone(ts: seq<Token>, types: seq<seq<Token>>, to: Part, n: nat, m: nat)
    requires TypesLength(ts) == Of(n) && n + m <= |ts| && ts[..n] == Separated(types) && GoodPart(to)
    requires ts[n..][..m] == PartTokens(Word("to"), to)
    ensures types == [] && to.Present? && to.types != [] ==> !Starts(to.types[0], Punct('<'))
  {
    if types == [] && to.Present? && to.types != [] {
      hide TypesLength;
      assert n == 0 by {
        NoTypes();
      }
      SeparatedReads(to.types);
      hide Separated;
      assert ts[..m] == [Word("to")] + Separated(to.types);
      assert ts[0] == ts[..m][0] && ts[1..][0] == ts[..m][1] == Separated(to.types)[0];
      NoTypeAtTo(ts);
    }
  }
}
