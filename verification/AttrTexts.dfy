/**
 Attribute values as they may be written, with what each means; the reader accepts exactly these
 (`_parse_attr_value`, `parse_attr_dict` in bdc/hs/parse.py).
 */
module AttrTexts {
  import opened Escapes
  import opened Attributes

  /** A type after a number, or none. */
  datatype Suffix = Untyped | OfType(name: string)

  /**
   A value as it is written: numbers with their type or without, `#name` with a group after it or none, arrays and
   dictionaries with a comma after their last item or without.
   */
  datatype Text = Quoted(text: string) | Bare(word: string) | Symbol(name: string)
                | Whole(n: int, hex: bool, suffix: Suffix) | Real(x: Decimal, suffix: Suffix)
                | Opaque(name: string, group: seq<Token>)
                | Array(items: seq<Text>, trailing: bool) | Dictionary(entries: seq<Pair>, trailing: bool)

  datatype Pair = Pair(quoted: bool, key: string, value: Text)

  function SuffixTokens(s: Suffix): seq<Token> {
    match s
    case Untyped => []
    case OfType(name) => [Punct(':'), Word(name)]
  }

  function TextTokens(t: Text): seq<Token>
    decreases t, 0
  {
    match t
    case Quoted(text) => [Str(text)]
    case Bare(word) => [Word(word)]
    case Symbol(name) => [Sym(name)]
    case Whole(n, hex, suffix) => [if hex then Hex(n) else Int(n)] + SuffixTokens(suffix)
    case Real(x, suffix) => [Float(x)] + SuffixTokens(suffix)
    case Opaque(name, group) => [Hash(name)] + group
    case Array(items, trailing) => [Punct('[')] + (ItemTokens(items, trailing) + [Punct(']')])
    case Dictionary(entries, trailing) => [Punct('{')] + (PairTokens(entries, trailing) + [Punct('}')])
  }

  function ItemTokens(items: seq<Text>, trailing: bool): seq<Token>
    decreases items, 1
  {
    if items == [] then []
    else TextTokens(items[0]) + (Comma(|items| > 1 || trailing) + ItemTokens(items[1..], trailing))
  }

  function PairTokens(entries: seq<Pair>, trailing: bool): seq<Token>
    decreases entries, 1
  {
    if entries == [] then []
    else
      var e := entries[0];
      [if e.quoted then Str(e.key) else Word(e.key), Punct('=')]
      + (TextTokens(e.value) + (Comma(|entries| > 1 || trailing) + PairTokens(entries[1..], trailing)))
  }

  function Numbered(n: Number, s: Suffix): Attr {
    match s
    case Untyped => NumVal(n)
    case OfType(name) => TypedVal(n, name)
  }

  /** What it means. */
  function Value(t: Text): Attr
    decreases t, 0
  {
    match t
    case Quoted(text) => StrVal(Unescape(text))
    case Bare(word) =>
      if word == "true" then BoolVal(true) else if word == "false" then BoolVal(false) else WordVal(word)
    case Symbol(name) => StrVal("@" + name)
    case Whole(n, _, suffix) => Numbered(IntNum(n), suffix)
    case Real(x, suffix) => Numbered(FloatNum(x), suffix)
    case Opaque(name, group) => OpaqueVal([Hash(name)] + group)
    case Array(items, _) => ListVal(Values(items))
    case Dictionary(entries, _) => DictVal(Entries([], entries))
  }

  function Values(items: seq<Text>): seq<Attr>
    decreases items, 1
  {
    if items == [] then [] else [Value(items[0])] + Values(items[1..])
  }

  function KeyText(e: Pair): string {
    if e.quoted then Unescape(e.key) else e.key
  }

  /** `acc` with the entries written: a key stays where it first stood and takes the value written last. */
  function Entries(acc: Dict, entries: seq<Pair>): Dict
    decreases entries, 1
  {
    if entries == [] then acc
    else Entries(Assign(acc, KeyText(entries[0]), Value(entries[0].value)), entries[1..])
  }

  /** A number has a type only where it may; a group is balanced; a lone comma is nothing. */
  ghost predicate GoodText(t: Text, typed: bool)
    decreases t, 0
  {
    match t
    case Whole(_, _, suffix) => suffix.OfType? ==> typed
    case Real(_, suffix) => suffix.OfType? ==> typed
    case Opaque(_, group) => group == [] || exists b :: Written(b, group)
    case Array(items, trailing) => (trailing ==> items != []) && GoodItems(items)
    case Dictionary(entries, trailing) => (trailing ==> entries != []) && GoodPairs(entries)
    case _ => true
  }

  ghost predicate GoodItems(items: seq<Text>)
    decreases items, 1
  {
    items != [] ==> GoodText(items[0], true) && GoodItems(items[1..])
  }

  ghost predicate GoodPairs(entries: seq<Pair>)
    decreases entries, 1
  {
    entries != [] ==> GoodText(entries[0].value, true) && GoodPairs(entries[1..])
  }

  function SuffixOf(t: Text): Suffix {
    match t
    case Whole(_, _, suffix) => suffix
    case Real(_, suffix) => suffix
    case _ => Untyped
  }

  /** What follows must not belong to the value: a bracket after `#name`, or a colon after a number without a type. */
  ghost predicate EndsAt(t: Text, typed: bool, rest: seq<Token>) {
    && (t.Opaque? && t.group == [] ==> rest == [] || !IsOpen(rest[0]))
    && ((t.Whole? || t.Real?) && SuffixOf(t) == Untyped && typed ==> !Starts(rest, Punct(':')))
  }

  // ---- everything written is read as what it means ------------------------------------

  lemma {:induction false} NumberReads(head: Token, n: Number, suffix: Suffix, typed: bool, rest: seq<Token>)
    requires suffix.OfType? ==> typed
    requires suffix == Untyped && typed ==> !Starts(rest, Punct(':'))
    ensures Typed(n, SuffixTokens(suffix) + rest, typed) == Done(Numbered(n, suffix), rest)
    ensures ([head] + SuffixTokens(suffix) + rest)[1..] == SuffixTokens(suffix) + rest
  {
    var ts := SuffixTokens(suffix) + rest;
    if suffix.OfType? {
      assert ts[2..] == rest;
    } else {
      assert ts == rest;
    }
  }

  lemma {:induction false} OpaqueReads(name: string, group: seq<Token>, typed: bool, rest: seq<Token>)
    requires GoodText(Opaque(name, group), typed) && EndsAt(Opaque(name, group), typed, rest)
    ensures ParseAttr([Hash(name)] + group + rest, typed) == Done(OpaqueVal([Hash(name)] + group), rest)
  {
    var ts := [Hash(name)] + group + rest;
    assert ts[1..] == group + rest;
    if group == [] {
      assert ts[1..] == rest && [Hash(name)] + group == [ts[0]];
    } else {
      var b :| Written(b, group);
      WrittenReads(b, group, rest);
      Brackets(b);
      hide Written, GroupLength;
      assert ts[1] == group[0];
      assert ts[..|group| + 1] == [Hash(name)] + group && ts[|group| + 1..] == rest;
    }
  }

  lemma {:induction false} NumbersRead(t: Text, typed: bool, rest: seq<Token>)
    requires GoodText(t, typed) && EndsAt(t, typed, rest) && (t.Whole? || t.Real?)
    ensures ParseAttr(TextTokens(t) + rest, typed) == Done(Value(t), rest)
  {
    var ts := TextTokens(t) + rest;
    var n := if t.Whole? then IntNum(t.n) else FloatNum(t.x);
    NumberReads(ts[0], n, t.suffix, typed, rest);
    assert ts == [ts[0]] + SuffixTokens(t.suffix) + rest;
    hide SuffixTokens, Typed;
  }

  lemma {:induction false} ScalarReads(t: Text, typed: bool, rest: seq<Token>)
    requires GoodText(t, typed) && EndsAt(t, typed, rest) && !t.Array? && !t.Dictionary?
    ensures ParseAttr(TextTokens(t) + rest, typed) == Done(Value(t), rest)
  {
    if t.Whole? || t.Real? {
      NumbersRead(t, typed, rest);
    } else if t.Opaque? {
      OpaqueReads(t.name, t.group, typed, rest);
    } else {
      hide Unescape;
      assert (TextTokens(t) + rest)[1..] == rest;
    }
  }

  /** Written values are read as what they mean, and no further. */
  lemma {:induction false} TextReads(t: Text, typed: bool, rest: seq<Token>)
    requires GoodText(t, typed) && EndsAt(t, typed, rest)
    ensures ParseAttr(TextTokens(t) + rest, typed) == Done(Value(t), rest)
    decreases t, 0
  {
    match t
    case Array(items, trailing) =>
      ItemsRead(items, trailing, [], rest);
      ArrayReads(t, typed, rest);
    case Dictionary(entries, trailing) =>
      PairsRead(entries, trailing, [], rest);
      DictionaryReads(t, typed, rest);
    case _ => ScalarReads(t, typed, rest);
  }

  lemma {:induction false} ArrayReads(t: Text, typed: bool, rest: seq<Token>)
    requires t.Array?
    requires ParseList(ItemTokens(t.items, t.trailing) + ([Punct(']')] + rest), []) == Done([] + Values(t.items), rest)
    ensures ParseAttr(TextTokens(t) + rest, typed) == Done(Value(t), rest)
  {
    hide ParseList, ItemTokens, Values;
    var ts := TextTokens(t) + rest;
    assert ts[1..] == ItemTokens(t.items, t.trailing) + ([Punct(']')] + rest);
    assert [] + Values(t.items) == Values(t.items);
  }

  lemma {:induction false} DictionaryReads(t: Text, typed: bool, rest: seq<Token>)
    requires t.Dictionary?
    requires ParseEntries(PairTokens(t.entries, t.trailing) + ([Punct('}')] + rest), []) ==
               Done(Entries([], t.entries), rest)
    ensures ParseAttr(TextTokens(t) + rest, typed) == Done(Value(t), rest)
  {
    hide ParseEntries, PairTokens, Entries;
    var ts := TextTokens(t) + rest;
    assert ts[1..] == PairTokens(t.entries, t.trailing) + ([Punct('}')] + rest);
  }

  lemma {:induction false} TextStarts(t: Text)
    ensures TextTokens(t) != [] && TextTokens(t)[0] != Punct(']') && TextTokens(t)[0] != Punct('}')
  {
  }

  lemma {:induction false} EndsInside(t: Text, more: bool, body: seq<Token>, close: char, rest: seq<Token>)
    requires close in {']', '}'}
    ensures var after := Comma(more) + (body + ([Punct(close)] + rest)); !more && body == [] ==> EndsAt(t, true, after)
    ensures more ==> EndsAt(t, true, Comma(more) + (body + ([Punct(close)] + rest)))
  {
  }

  lemma {:induction false} ItemsRead(items: seq<Text>, trailing: bool, acc: seq<Attr>, rest: seq<Token>)
    requires GoodItems(items)
    ensures ParseList(ItemTokens(items, trailing) + ([Punct(']')] + rest), acc) == Done(acc + Values(items), rest)
    decreases items, 1
  {
    var tail := [Punct(']')] + rest;
    if items == [] {
      assert ItemTokens(items, trailing) + tail == tail && tail[1..] == rest && acc + [] == acc;
    } else {
      var t, more, comma := items[0], items[1..], |items| > 1 || trailing;
      var body := ItemTokens(more, trailing);
      var after := Comma(comma) + (body + tail);
      assert acc + [Value(t)] + Values(more) == acc + Values(items);
      ItemsRead(more, trailing, acc + [Value(t)], rest);
      assert !comma ==> body == [];
      EndsInside(t, comma, body, ']', rest);
      TextReads(t, true, after);
      TextStarts(t);
      AfterComma(comma, body, tail, Punct(']'));
      hide *;
      ListStep(Value(t), TextTokens(t), after, acc);
      ItemsUnfold(items, trailing, tail);
    }
  }

  lemma {:induction false} ItemsUnfold(items: seq<Text>, trailing: bool, tail: seq<Token>)
    requires items != []
    ensures ItemTokens(items, trailing) + tail ==
              TextTokens(items[0]) + (Comma(|items| > 1 || trailing) + (ItemTokens(items[1..], trailing) + tail))
  {
    hide TextTokens, Comma;
    var x, y, z := TextTokens(items[0]), Comma(|items| > 1 || trailing), ItemTokens(items[1..], trailing);
    assert x + (y + z) + tail == x + (y + (z + tail));
  }

  lemma {:induction false} PairsRead(entries: seq<Pair>, trailing: bool, acc: Dict, rest: seq<Token>)
    requires GoodPairs(entries)
    ensures ParseEntries(PairTokens(entries, trailing) + ([Punct('}')] + rest), acc) ==
              Done(Entries(acc, entries), rest)
    decreases entries, 1
  {
    var tail := [Punct('}')] + rest;
    if entries == [] {
      assert PairTokens(entries, trailing) + tail == tail && tail[1..] == rest;
    } else {
      var e, more, comma := entries[0], entries[1..], |entries| > 1 || trailing;
      var body := PairTokens(more, trailing);
      var after := Comma(comma) + (body + tail);
      var now := Assign(acc, KeyText(e), Value(e.value));
      assert Entries(acc, entries) == Entries(now, more);
      PairsRead(more, trailing, now, rest);
      assert !comma ==> body == [];
      EndsInside(e.value, comma, body, '}', rest);
      TextReads(e.value, true, after);
      AfterComma(comma, body, tail, Punct('}'));
      hide *;
      PairStep(e, after, acc);
      PairsUnfold(entries, trailing, tail);
    }
  }

  function KeyToken(e: Pair): Token {
    if e.quoted then Str(e.key) else Word(e.key)
  }

  /** One entry, and what follows it. */
  lemma {:induction false} PairStep(e: Pair, after: seq<Token>, acc: Dict)
    requires ParseAttr(TextTokens(e.value) + after, true) == Done(Value(e.value), after)
    ensures var ts := [KeyToken(e), Punct('=')] + (TextTokens(e.value) + after);
            var now := Assign(acc, KeyText(e), Value(e.value));
            && (Starts(after, Punct(',')) ==> ParseEntries(ts, acc) == ParseEntries(after[1..], now))
            && (Starts(after, Punct('}')) ==> ParseEntries(ts, acc) == ParseEntries(after, now))
  {
    hide ParseAttr, TextTokens, Value, Assign, Unescape;
    var ts := [KeyToken(e), Punct('=')] + (TextTokens(e.value) + after);
    assert ts[2..] == TextTokens(e.value) + after;
  }

  lemma {:induction false} PairsUnfold(entries: seq<Pair>, trailing: bool, tail: seq<Token>)
    requires entries != []
    ensures PairTokens(entries, trailing) + tail ==
              [KeyToken(entries[0]), Punct('=')] + (TextTokens(entries[0].value)
              + (Comma(|entries| > 1 || trailing) + (PairTokens(entries[1..], trailing) + tail)))
  {
    hide TextTokens, Comma;
    var w, x := [KeyToken(entries[0]), Punct('=')], TextTokens(entries[0].value);
    var y, z := Comma(|entries| > 1 || trailing), PairTokens(entries[1..], trailing);
    assert w + (x + (y + z)) + tail == w + (x + (y + (z + tail)));
  }

  // ---- nothing else is read -----------------------------------------------------------

  /** Whatever is read as a value is one that may be written, and means what was read. */
  lemma {:induction false} ReadIsText(ts: seq<Token>, typed: bool) returns (t: Text)
    requires ParseAttr(ts, typed).Done?
    ensures var r := ParseAttr(ts, typed);
            GoodText(t, typed) && EndsAt(t, typed, r.rest) && ts == TextTokens(t) + r.rest && Value(t) == r.value
    decreases |ts|, 0
  {
    if ts[0] == Punct('[') {
      var items, trailing := ReadIsItems(ts[1..], []);
      t := Array(items, trailing);
      ArrayRead(ts, typed, t);
    } else if ts[0] == Punct('{') {
      var entries, trailing := ReadIsPairs(ts[1..], []);
      t := Dictionary(entries, trailing);
      DictionaryRead(ts, typed, t);
    } else {
      t := ReadIsScalar(ts, typed);
    }
  }

  lemma {:induction false} ArrayRead(ts: seq<Token>, typed: bool, t: Text)
    requires ts != [] && ts[0] == Punct('[') && t.Array? && GoodText(t, typed) && ParseList(ts[1..], []).Done?
    requires var r := ParseList(ts[1..], []);
             r.value == [] + Values(t.items) && ts[1..] == ItemTokens(t.items, t.trailing) + ([Punct(']')] + r.rest)
    ensures var r := ParseAttr(ts, typed);
            r.Done? && EndsAt(t, typed, r.rest) && ts == TextTokens(t) + r.rest && Value(t) == r.value
  {
    hide ParseList, ItemTokens, Values, GoodText;
    var r := ParseList(ts[1..], []);
    assert [] + Values(t.items) == Values(t.items);
    assert ts == [ts[0]] + ts[1..];
  }

  lemma {:induction false} DictionaryRead(ts: seq<Token>, typed: bool, t: Text)
    requires ts != [] && ts[0] == Punct('{') && t.Dictionary? && ParseEntries(ts[1..], []).Done?
    requires var r := ParseEntries(ts[1..], []);
             r.value == Entries([], t.entries) && ts[1..] == PairTokens(t.entries, t.trailing) + ([Punct('}')] + r.rest)
    ensures var r := ParseAttr(ts, typed);
            r.Done? && EndsAt(t, typed, r.rest) && ts == TextTokens(t) + r.rest && Value(t) == r.value
  {
    hide ParseEntries, PairTokens, Entries;
    var r := ParseEntries(ts[1..], []);
    assert ts == [ts[0]] + ts[1..];
  }

  lemma {:induction false} ReadIsScalar(ts: seq<Token>, typed: bool) returns (t: Text)
    requires ParseAttr(ts, typed).Done? && ts[0] != Punct('[') && ts[0] != Punct('{')
    ensures var r := ParseAttr(ts, typed);
            GoodText(t, typed) && EndsAt(t, typed, r.rest) && ts == TextTokens(t) + r.rest && Value(t) == r.value
  {
    if ts[0].Int? || ts[0].Hex? || ts[0].Float? {
      t := ReadIsNumber(ts, typed);
    } else if ts[0].Hash? {
      t := ReadIsOpaque(ts, typed);
    } else {
      hide Unescape;
      t := if ts[0].Str? then Quoted(ts[0].text) else if ts[0].Word? then Bare(ts[0].text) else Symbol(ts[0].name);
      assert ts == [ts[0]] + ts[1..];
    }
  }

  lemma {:induction false} ReadIsNumber(ts: seq<Token>, typed: bool) returns (t: Text)
    requires ParseAttr(ts, typed).Done? && (ts[0].Int? || ts[0].Hex? || ts[0].Float?)
    ensures var r := ParseAttr(ts, typed);
            GoodText(t, typed) && EndsAt(t, typed, r.rest) && ts == TextTokens(t) + r.rest && Value(t) == r.value
  {
    var n := if ts[0].Float? then FloatNum(ts[0].x) else IntNum(ts[0].value);
    assert ParseAttr(ts, typed) == Typed(n, ts[1..], typed);
    var suffix := SuffixRead(ts[1..], n, typed);
    t := if ts[0].Float? then Real(ts[0].x, suffix) else Whole(ts[0].value, ts[0].Hex?, suffix);
    hide ParseAttr, Typed, SuffixTokens;
    assert ts == [ts[0]] + ts[1..];
    var rest := Typed(n, ts[1..], typed).rest;
    assert [ts[0]] + (SuffixTokens(suffix) + rest) == [ts[0]] + SuffixTokens(suffix) + rest;
  }

  lemma {:induction false} SuffixRead(ts: seq<Token>, n: Number, typed: bool) returns (s: Suffix)
    requires Typed(n, ts, typed).Done?
    ensures var r := Typed(n, ts, typed);
            ts == SuffixTokens(s) + r.rest && r.value == Numbered(n, s) && (s.OfType? ==> typed)
              && (s == Untyped && typed ==> !Starts(r.rest, Punct(':')))
  {
    if !typed || !Starts(ts, Punct(':')) {
      s := Untyped;
    } else {
      s := OfType(ts[1].text);
      assert ts == [ts[0], ts[1]] + ts[2..];
    }
  }

  lemma {:induction false} ReadIsOpaque(ts: seq<Token>, typed: bool) returns (t: Text)
    requires ParseAttr(ts, typed).Done? && ts[0].Hash?
    ensures var r := ParseAttr(ts, typed);
            GoodText(t, typed) && EndsAt(t, typed, r.rest) && ts == TextTokens(t) + r.rest && Value(t) == r.value
  {
    if |ts| == 1 || !IsOpen(ts[1]) {
      t := Opaque(ts[0].text, []);
      assert ts == [ts[0]] + [] + ts[1..];
    } else {
      var n := GroupLength(ts[1..]).n;
      var group := ts[1..][..n];
      t := Opaque(ts[0].text, group);
      GroupPrefix(ts[1..], n);
      GroupIff(group);
      hide GroupLength, Written;
      assert ts == [ts[0]] + group + ts[n + 1..];
      assert ts[..n + 1] == [ts[0]] + group;
    }
  }

  /** One item read, and what is read after it. */
  lemma {:induction false} ListStepBack(ts: seq<Token>, acc: seq<Attr>)
    requires ParseList(ts, acc).Done? && !Starts(ts, Punct(']'))
    ensures var v := ParseAttr(ts, true);
            && v.Done? && (Starts(v.rest, Punct(',')) || Starts(v.rest, Punct(']')))
            && ParseList(ts, acc) ==
                 ParseList(if Starts(v.rest, Punct(',')) then v.rest[1..] else v.rest, acc + [v.value])
  {
    hide ParseAttr;
  }

  lemma {:induction false} ListStepEnd(ts: seq<Token>, acc: seq<Attr>)
    requires Starts(ts, Punct(']'))
    ensures ParseList(ts, acc) == Done(acc, ts[1..]) && ts == [Punct(']')] + ts[1..]
  {
  }

  ghost predicate ItemsAre(ts: seq<Token>, acc: seq<Attr>, items: seq<Text>, trailing: bool) {
    var r := ParseList(ts, acc);
    && r.Done? && GoodItems(items) && (trailing ==> items != []) && r.value == acc + Values(items)
    && ts == ItemTokens(items, trailing) + ([Punct(']')] + r.rest)
  }

  lemma {:induction false} NoItems(ts: seq<Token>, acc: seq<Attr>)
    requires Starts(ts, Punct(']'))
    ensures ItemsAre(ts, acc, [], false)
  {
    ListStepEnd(ts, acc);
    assert acc + [] == acc;
    assert [] + ts == ts;
    hide ParseList;
  }

  lemma {:induction false} ReadIsItems(ts: seq<Token>, acc: seq<Attr>) returns (items: seq<Text>, trailing: bool)
    requires ParseList(ts, acc).Done?
    ensures ItemsAre(ts, acc, items, trailing)
    decreases |ts|, 1
  {
    if Starts(ts, Punct(']')) {
      items, trailing := [], false;
      NoItems(ts, acc);
    } else {
      ListStepBack(ts, acc);
      var v := ParseAttr(ts, true);
      var comma := Starts(v.rest, Punct(','));
      var t := ReadIsText(ts, true);
      var next := if comma then v.rest[1..] else v.rest;
      var more, last := ReadIsItems(next, acc + [v.value]);
      items, trailing := [t] + more, if more == [] then comma else last;
      hide *;
      ItemsJoin(ts, acc, t, v.rest, comma, more, last);
    }
  }

  lemma {:induction false} ItemsJoin(ts: seq<Token>, acc: seq<Attr>, t: Text, after: seq<Token>, comma: bool,
      more: seq<Text>, last: bool)
    requires ParseAttr(ts, true) == Done(Value(t), after) && GoodText(t, true) && ts == TextTokens(t) + after
    requires comma == Starts(after, Punct(','))
    requires !comma ==> Starts(after, Punct(']'))
    requires var next := if comma then after[1..] else after;
             ItemsAre(next, acc + [Value(t)], more, last) && ParseList(ts, acc) == ParseList(next, acc + [Value(t)])
    ensures ItemsAre(ts, acc, [t] + more, if more == [] then comma else last)
  {
    var next := if comma then after[1..] else after;
    hide *;
    ItemsParts(next, acc + [Value(t)], more, last);
    var tail := [Punct(']')] + ParseList(ts, acc).rest;
    ItemsStart(more, last, tail);
    ItemTokensJoin(ts, t, after, comma, next, more, last, tail);
    MoreItems(t, more);
    AppendOne(acc, Value(t), Values(more));
    ItemsFrom(ts, acc, [t] + more, if more == [] then comma else last);
  }

  lemma {:induction false} AppendOne(acc: seq<Attr>, v: Attr, more: seq<Attr>)
    ensures acc + [v] + more == acc + ([v] + more)
  {
  }

  lemma {:induction false} ItemsParts(ts: seq<Token>, acc: seq<Attr>, items: seq<Text>, trailing: bool)
    requires ItemsAre(ts, acc, items, trailing)
    ensures var r := ParseList(ts, acc);
            r.Done? && GoodItems(items) && (trailing ==> items != []) && r.value == acc + Values(items)
              && ts == ItemTokens(items, trailing) + ([Punct(']')] + r.rest)
  {
    hide ParseList, GoodItems, Values, ItemTokens;
  }

  lemma {:induction false} ItemsFrom(ts: seq<Token>, acc: seq<Attr>, items: seq<Text>, trailing: bool)
    requires var r := ParseList(ts, acc);
             r.Done? && GoodItems(items) && (trailing ==> items != []) && r.value == acc + Values(items)
               && ts == ItemTokens(items, trailing) + ([Punct(']')] + r.rest)
    ensures ItemsAre(ts, acc, items, trailing)
  {
    hide ParseList, GoodItems, Values, ItemTokens;
  }

  lemma {:induction false} ItemTokensJoin(ts: seq<Token>, t: Text, after: seq<Token>, comma: bool, next: seq<Token>,
      more: seq<Text>, last: bool, tail: seq<Token>)
    requires ts == TextTokens(t) + after && comma == Starts(after, Punct(',')) && (!comma ==> more == [])
    requires next == (if comma then after[1..] else after) && next == ItemTokens(more, last) + tail
    ensures ts == ItemTokens([t] + more, if more == [] then comma else last) + tail
  {
    var trailing := if more == [] then comma else last;
    assert ([t] + more)[1..] == more;
    CommaThen(after, comma, next);
    ItemsUnfold([t] + more, trailing, tail);
    NoItemsNoComma(more, trailing, last);
    hide *;
  }

  lemma {:induction false} NoItemsNoComma(more: seq<Text>, a: bool, b: bool)
    requires more == [] || a == b
    ensures ItemTokens(more, a) == ItemTokens(more, b)
  {
  }

  lemma {:induction false} MoreItems(t: Text, more: seq<Text>)
    requires GoodText(t, true) && GoodItems(more)
    ensures GoodItems([t] + more) && Values([t] + more) == [Value(t)] + Values(more)
  {
    assert ([t] + more)[1..] == more;
    hide GoodText, Value;
  }

  lemma {:induction false} CommaThen(after: seq<Token>, comma: bool, next: seq<Token>)
    requires comma == Starts(after, Punct(',')) && next == if comma then after[1..] else after
    ensures after == Comma(comma) + next
  {
  }

  /** Where there is an item, no bracket closes the list. */
  lemma {:induction false} ItemsStart(items: seq<Text>, trailing: bool, tail: seq<Token>)
    ensures items != [] ==> !Starts(ItemTokens(items, trailing) + tail, Punct(']'))
  {
    if items != [] {
      TextStarts(items[0]);
      hide TextTokens;
      assert (ItemTokens(items, trailing) + tail)[0] == TextTokens(items[0])[0];
    }
  }

  // ---- dictionaries ---------------------------------------------------------------

  lemma {:induction false} PairStepBack(ts: seq<Token>, acc: Dict) returns (quoted: bool, key: string)
    requires ParseEntries(ts, acc).Done? && !Starts(ts, Punct('}'))
    ensures |ts| >= 2 && ts[0] == (if quoted then Str(key) else Word(key)) && ts[1] == Punct('=')
    ensures var v := ParseAttr(ts[2..], true);
            && v.Done? && (Starts(v.rest, Punct(',')) || Starts(v.rest, Punct('}')))
            && ParseEntries(ts, acc) ==
                 ParseEntries(if Starts(v.rest, Punct(',')) then v.rest[1..] else v.rest,
                   Assign(acc, if quoted then Unescape(key) else key, v.value))
  {
    hide ParseAttr, Assign, Unescape;
    quoted := ts[0].Str?;
    key := if quoted then ts[0].text else ts[0].text;
  }

  ghost predicate PairsAre(ts: seq<Token>, acc: Dict, entries: seq<Pair>, trailing: bool) {
    var r := ParseEntries(ts, acc);
    && r.Done? && GoodPairs(entries) && (trailing ==> entries != []) && r.value == Entries(acc, entries)
    && ts == PairTokens(entries, trailing) + ([Punct('}')] + r.rest)
  }

  lemma {:induction false} NoPairs(ts: seq<Token>, acc: Dict)
    requires Starts(ts, Punct('}'))
    ensures PairsAre(ts, acc, [], false) && ParseEntries(ts, acc).rest == ts[1..]
  {
    assert ts == [Punct('}')] + ts[1..];
    assert [] + ts == ts;
  }

  lemma {:induction false} ReadIsPairs(ts: seq<Token>, acc: Dict) returns (entries: seq<Pair>, trailing: bool)
    requires ParseEntries(ts, acc).Done?
    ensures PairsAre(ts, acc, entries, trailing)
    decreases |ts|, 1
  {
    if Starts(ts, Punct('}')) {
      entries, trailing := [], false;
      NoPairs(ts, acc);
    } else {
      var quoted, key := PairStepBack(ts, acc);
      var v := ParseAttr(ts[2..], true);
      var comma := Starts(v.rest, Punct(','));
      var t := ReadIsText(ts[2..], true);
      var e := Pair(quoted, key, t);
      var next := if comma then v.rest[1..] else v.rest;
      assert KeyText(e) == if quoted then Unescape(key) else key;
      assert KeyToken(e) == ts[0];
      var more, last := ReadIsPairs(next, Assign(acc, KeyText(e), v.value));
      entries, trailing := [e] + more, if more == [] then comma else last;
      hide *;
      PairsJoin(ts, acc, e, v.rest, comma, more, last);
    }
  }

  lemma {:induction false} PairsJoin(ts: seq<Token>, acc: Dict, e: Pair, after: seq<Token>, comma: bool,
      more: seq<Pair>, last: bool)
    requires |ts| >= 2 && ts[0] == KeyToken(e) && ts[1] == Punct('=') && ts[2..] == TextTokens(e.value) + after
    requires GoodText(e.value, true) && comma == Starts(after, Punct(','))
    requires !comma ==> Starts(after, Punct('}'))
    requires var next, now := if comma then after[1..] else after, Assign(acc, KeyText(e), Value(e.value));
             PairsAre(next, now, more, last) && ParseEntries(ts, acc) == ParseEntries(next, now)
    ensures PairsAre(ts, acc, [e] + more, if more == [] then comma else last)
  {
    hide ParseAttr, ParseEntries, TextTokens, Value, PairTokens, Entries, GoodText, GoodPairs, KeyToken, KeyText,
      Assign, Comma;
    var next := if comma then after[1..] else after;
    var tail := [Punct('}')] + ParseEntries(ts, acc).rest;
    PairsStart(more, last, tail);
    assert !comma ==> more == [];
    PairTokensJoin(ts, e, after, comma, next, more, last, tail);
    MorePairs(acc, e, more);
  }

  lemma {:induction false} PairTokensJoin(ts: seq<Token>, e: Pair, after: seq<Token>, comma: bool, next: seq<Token>,
      more: seq<Pair>, last: bool, tail: seq<Token>)
    requires |ts| >= 2 && ts[0] == KeyToken(e) && ts[1] == Punct('=') && ts[2..] == TextTokens(e.value) + after
    requires comma == Starts(after, Punct(',')) && (!comma ==> more == [])
    requires next == (if comma then after[1..] else after) && next == PairTokens(more, last) + tail
    ensures ts == PairTokens([e] + more, if more == [] then comma else last) + tail
  {
    hide *;
    var trailing := if more == [] then comma else last;
    assert ([e] + more)[1..] == more;
    CommaThen(after, comma, next);
    PairsUnfold([e] + more, trailing, tail);
    NoPairsNoComma(more, trailing, last);
    TwoThen(ts);
  }

  lemma {:induction false} TwoThen(ts: seq<Token>)
    requires |ts| >= 2
    ensures ts == [ts[0], ts[1]] + ts[2..]
  {
  }

  lemma {:induction false} NoPairsNoComma(more: seq<Pair>, a: bool, b: bool)
    requires more == [] || a == b
    ensures PairTokens(more, a) == PairTokens(more, b)
  {
  }

  lemma {:induction false} MorePairs(acc: Dict, e: Pair, more: seq<Pair>)
    requires GoodText(e.value, true) && GoodPairs(more)
    ensures GoodPairs([e] + more)
    ensures Entries(acc, [e] + more) == Entries(Assign(acc, KeyText(e), Value(e.value)), more)
  {
    assert ([e] + more)[1..] == more;
    hide GoodText, Value, Assign;
  }

  lemma {:induction false} PairsStart(entries: seq<Pair>, trailing: bool, tail: seq<Token>)
    ensures entries != [] ==> !Starts(PairTokens(entries, trailing) + tail, Punct('}'))
  {
    if entries != [] {
      hide TextTokens;
      assert (PairTokens(entries, trailing) + tail)[0] == KeyToken(entries[0]);
    }
  }

  /**
   The reader takes a value exactly where one is written, as what it means, and stops where it ends: nothing
   written is refused or misread, and nothing else is accepted.
   */
  lemma {:induction false} ReaderIff(ts: seq<Token>, typed: bool, v: Attr, rest: seq<Token>)
    ensures ParseAttr(ts, typed) == Done(v, rest) <==>
              exists t :: GoodText(t, typed) && EndsAt(t, typed, rest) && ts == TextTokens(t) + rest && Value(t) == v
  {
    if ParseAttr(ts, typed) == Done(v, rest) {
      var t := ReadIsText(ts, typed);
    }
    if t :| GoodText(t, typed) && EndsAt(t, typed, rest) && ts == TextTokens(t) + rest && Value(t) == v {
      TextReads(t, typed, rest);
    }
  }

  lemma {:induction false} DictIsDict(t: Text)
    ensures Value(t).DictVal? <==> t.Dictionary?
  {
  }

  lemma {:induction false} DictAlone(ts: seq<Token>, d: Dict, rest: seq<Token>)
    ensures ParseDict(ts) == Done(d, rest) <==> ParseAttr(ts, true) == Done(DictVal(d), rest)
  {
    hide ParseEntries, ParseList;
  }

  /** The same for a dictionary on its own. */
  lemma {:induction false} DictionaryIff(ts: seq<Token>, d: Dict, rest: seq<Token>)
    ensures ParseDict(ts) == Done(d, rest) <==>
              exists entries, trailing :: GoodText(Dictionary(entries, trailing), true)
                && ts == TextTokens(Dictionary(entries, trailing)) + rest && Entries([], entries) == d
  {
    ReaderIff(ts, true, DictVal(d), rest);
    DictAlone(ts, d, rest);
    hide ParseDict, ParseAttr, TextTokens, Entries, GoodText;
    if ParseDict(ts) == Done(d, rest) {
      var t :| GoodText(t, true) && ts == TextTokens(t) + rest && Value(t) == DictVal(d);
      DictIsDict(t);
      assert t == Dictionary(t.entries, t.trailing);
    }
    if entries, trailing :|
        GoodText(Dictionary(entries, trailing), true)
        && ts == TextTokens(Dictionary(entries, trailing)) + rest && Entries([], entries) == d {
      assert Value(Dictionary(entries, trailing)) == DictVal(d);
    }
  }
}
