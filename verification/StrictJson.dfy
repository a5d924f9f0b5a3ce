/**
 The strict reading of a JSON document from a decoder's tokens.

 A document is refused when it nests too deep, holds too many values, repeats a key inside
 one object, stops short or goes on past its end.  Nothing else is refused: the reader
 accepts exactly the printed documents within those bounds and returns what each denotes.
 The separators and the spelling of tokens are the decoder's own and are not part of this
 model; text the decoder cannot turn into a token is the token Garbage.
 */
module StrictJson {
  import opened Wrappers

  const MAX_DEPTH: nat := 16

  datatype Token = OpenObject | CloseObject | OpenArray | CloseArray | Garbage
                 | StringToken(s: string) | NumberToken(literal: string) | BoolToken(b: bool) | NullToken

  datatype JsonError = TooDeep | TooManyValues | Truncated | Syntax | KeyNotString | DuplicateKey | MoreAfterValue

  /** A decoded value; a number keeps the text of its literal. */
  datatype Value = Object(fields: map<string, Value>) | Array(items: seq<Value>)
                 | String(s: string) | Number(literal: string) | Bool(b: bool) | Null

  /** A document as written: an object's fields in order, a key possibly repeated. */
  datatype Doc = ObjectDoc(fields: Fields) | ArrayDoc(items: Items) | Scalar(token: Token)

  datatype Fields = NoFields | FieldsThen(before: Fields, key: string, value: Doc)

  datatype Items = NoItems | ItemsThen(before: Items, value: Doc)

  // ------------------------------------------------------- documents and what they mean

  predicate IsScalar(t: Token) {
    t.StringToken? || t.NumberToken? || t.BoolToken? || t.NullToken?
  }

  predicate Closes(t: Token) {
    t.CloseObject? || t.CloseArray?
  }

  /** Built of scalars, and no object repeats a key. */
  predicate Proper(d: Doc) {
    match d
    case ObjectDoc(fs) => ProperFields(fs)
    case ArrayDoc(vs) => ProperItems(vs)
    case Scalar(t) => IsScalar(t)
  }

  predicate ProperFields(fs: Fields) {
    fs.FieldsThen? ==> ProperFields(fs.before) && fs.key !in Keys(fs.before) && Proper(fs.value)
  }

  predicate ProperItems(vs: Items) {
    vs.ItemsThen? ==> ProperItems(vs.before) && Proper(vs.value)
  }

  function Keys(fs: Fields): set<string> {
    match fs case NoFields => {} case FieldsThen(b, k, _) => Keys(b) + {k}
  }

  function Print(d: Doc): seq<Token> {
    match d
    case ObjectDoc(fs) => [OpenObject] + (PrintFields(fs) + [CloseObject])
    case ArrayDoc(vs) => [OpenArray] + (PrintItems(vs) + [CloseArray])
    case Scalar(t) => [t]
  }

  function PrintFields(fs: Fields): seq<Token> {
    match fs case NoFields => [] case FieldsThen(b, k, v) => PrintFields(b) + ([StringToken(k)] + Print(v))
  }

  function PrintItems(vs: Items): seq<Token> {
    match vs case NoItems => [] case ItemsThen(b, v) => PrintItems(b) + Print(v)
  }

  /** How many values a document holds, itself included. */
  function Nodes(d: Doc): nat {
    match d case ObjectDoc(fs) => 1 + FieldNodes(fs) case ArrayDoc(vs) => 1 + ItemNodes(vs) case Scalar(_) => 1
  }

  function FieldNodes(fs: Fields): nat {
    match fs case NoFields => 0 case FieldsThen(b, _, v) => FieldNodes(b) + Nodes(v)
  }

  function ItemNodes(vs: Items): nat {
    match vs case NoItems => 0 case ItemsThen(b, v) => ItemNodes(b) + Nodes(v)
  }

  function Max(a: nat, b: nat): nat { if a < b then b else a }

  /** How many levels lie below a document. */
  function Height(d: Doc): nat {
    match d case ObjectDoc(fs) => FieldHeight(fs) case ArrayDoc(vs) => ItemHeight(vs) case Scalar(_) => 0
  }

  function FieldHeight(fs: Fields): nat {
    match fs case NoFields => 0 case FieldsThen(b, _, v) => Max(FieldHeight(b), 1 + Height(v))
  }

  function ItemHeight(vs: Items): nat {
    match vs case NoItems => 0 case ItemsThen(b, v) => Max(ItemHeight(b), 1 + Height(v))
  }

  function Denote(d: Doc): Value {
    match d
    case ObjectDoc(fs) => Object(DenoteFields(fs))
    case ArrayDoc(vs) => Array(DenoteItems(vs))
    case Scalar(t) => Plain(t)
  }

  function Plain(t: Token): Value {
    match t
    case StringToken(s) => String(s)
    case NumberToken(l) => Number(l)
    case BoolToken(b) => Bool(b)
    case _ => Null
  }

  function DenoteFields(fs: Fields): (m: map<string, Value>)
    ensures m.Keys == Keys(fs)
  {
    match fs case NoFields => map[] case FieldsThen(b, k, v) => DenoteFields(b)[k := Denote(v)]
  }

  function DenoteItems(vs: Items): seq<Value> {
    match vs case NoItems => [] case ItemsThen(b, v) => DenoteItems(b) + [Denote(v)]
  }

  /** Within the reader's bounds when it starts at a depth with so many values counted. */
  predicate Within(d: Doc, depth: nat, nodes: nat, max: nat) {
    Proper(d) && depth + Height(d) <= MAX_DEPTH && nodes + Nodes(d) <= max
  }

  // --------------------------------------------------------------- the reading, as a function

  /** A document read, the tokens left and the values counted so far. */
  datatype Read = Read(doc: Doc, left: seq<Token>, nodes: nat)

  datatype ReadFields = ReadFields(fields: Fields, left: seq<Token>, nodes: nat)

  datatype ReadItems = ReadItems(items: Items, left: seq<Token>, nodes: nat)

  function ParseValue(left: seq<Token>, depth: nat, nodes: nat, max: nat): (r: Result<Read, JsonError>)
    ensures r.Ok? ==> |r.value.left| < |left|
    decreases |left|, 1
  {
    if depth > MAX_DEPTH then Err(TooDeep)
    else if nodes + 1 > max then Err(TooManyValues)
    else if left == [] then Err(Truncated)
    else
      match left[0]
      case OpenObject =>
        (match ParseFields(left[1..], depth, nodes + 1, max, NoFields)
         case Err(e) => Err(e)
         case Ok(p) => Ok(Read(ObjectDoc(p.fields), p.left, p.nodes)))
      case OpenArray =>
        (match ParseItems(left[1..], depth, nodes + 1, max, NoItems)
         case Err(e) => Err(e)
         case Ok(p) => Ok(Read(ArrayDoc(p.items), p.left, p.nodes)))
      case t => if IsScalar(t) then Ok(Read(Scalar(t), left[1..], nodes + 1)) else Err(Syntax)
  }

  function ParseFields(left: seq<Token>, depth: nat, nodes: nat, max: nat, acc: Fields)
    : (r: Result<ReadFields, JsonError>)
    ensures r.Ok? ==> |r.value.left| < |left|
    decreases |left|, 2
  {
    if left == [] then Err(Truncated)
    else if Closes(left[0]) then
      if left[0].CloseObject? then Ok(ReadFields(acc, left[1..], nodes)) else Err(Syntax)
    else if left[0].Garbage? then Err(Syntax)
    else if !left[0].StringToken? then Err(KeyNotString)
    else if left[0].s in Keys(acc) then Err(DuplicateKey)
    else
      match ParseValue(left[1..], depth + 1, nodes, max)
      case Err(e) => Err(e)
      case Ok(p) => ParseFields(p.left, depth, p.nodes, max, FieldsThen(acc, left[0].s, p.doc))
  }

  function ParseItems(left: seq<Token>, depth: nat, nodes: nat, max: nat, acc: Items)
    : (r: Result<ReadItems, JsonError>)
    ensures r.Ok? ==> |r.value.left| < |left|
    decreases |left|, 2
  {
    if left == [] then Err(Truncated)
    else if Closes(left[0]) then
      if left[0].CloseArray? then Ok(ReadItems(acc, left[1..], nodes)) else Err(Syntax)
    else
      match ParseValue(left, depth + 1, nodes, max)
      case Err(e) => Err(e)
      case Ok(p) => ParseItems(p.left, depth, p.nodes, max, ItemsThen(acc, p.doc))
  }

  // ------------------------------------------------------- what is accepted is in bounds

  lemma {:induction false} ReadIsPrinted(left: seq<Token>, depth: nat, nodes: nat, max: nat)
    requires ParseValue(left, depth, nodes, max).Ok?
    ensures var p := ParseValue(left, depth, nodes, max).value;
            left == Print(p.doc) + p.left && Within(p.doc, depth, nodes, max) && p.nodes == nodes + Nodes(p.doc)
    decreases |left|, 1
  {
    var p := ParseValue(left, depth, nodes, max).value;
    HeadAndRest(left);
    match p.doc
    case ObjectDoc(fs) =>
      FieldsArePrinted(left[1..], depth, nodes + 1, max, NoFields);
      NothingBefore(left[1..]);
      Enclosed(left, OpenObject, PrintFields(fs), CloseObject, p.left);
    case ArrayDoc(vs) =>
      ItemsArePrinted(left[1..], depth, nodes + 1, max, NoItems);
      NothingBefore(left[1..]);
      Enclosed(left, OpenArray, PrintItems(vs), CloseArray, p.left);
    case Scalar(_) =>
  }

  lemma HeadAndRest(left: seq<Token>)
    ensures left != [] ==> left == [left[0]] + left[1..]
  {
  }

  lemma NothingBefore(left: seq<Token>)
    ensures [] + left == left
  {
  }

  lemma Enclosed(left: seq<Token>, open: Token, inside: seq<Token>, close: Token, rest: seq<Token>)
    requires left != [] && left[0] == open && left[1..] == inside + ([close] + rest)
    ensures left == [open] + (inside + [close]) + rest
  {
    Reassociate(open, inside, close, rest);
    HeadAndRest(left);
  }

  lemma Reassociate(open: Token, inside: seq<Token>, close: Token, rest: seq<Token>)
    ensures [open] + (inside + [close]) + rest == [open] + (inside + ([close] + rest))
  {
  }

  lemma {:induction false} FieldsArePrinted(left: seq<Token>, depth: nat, nodes: nat, max: nat, acc: Fields)
    requires ParseFields(left, depth, nodes, max, acc).Ok?
    requires ProperFields(acc) && depth + FieldHeight(acc) <= MAX_DEPTH && nodes <= max
    ensures var p := ParseFields(left, depth, nodes, max, acc).value;
            && PrintFields(acc) + left == PrintFields(p.fields) + ([CloseObject] + p.left)
            && ProperFields(p.fields) && depth + FieldHeight(p.fields) <= MAX_DEPTH
            && p.nodes == nodes + FieldNodes(p.fields) - FieldNodes(acc) && p.nodes <= max
    decreases |left|, 2
  {
    assert left == [left[0]] + left[1..];
    if !left[0].CloseObject? {
      ReadIsPrinted(left[1..], depth + 1, nodes, max);
      var v := ParseValue(left[1..], depth + 1, nodes, max).value;
      FieldsArePrinted(v.left, depth, v.nodes, max, FieldsThen(acc, left[0].s, v.doc));
      StepOver(PrintFields(acc), left[0], Print(v.doc), v.left);
    }
  }

  lemma StepOver(done: seq<Token>, key: Token, value: seq<Token>, rest: seq<Token>)
    ensures done + ([key] + (value + rest)) == done + ([key] + value) + rest
  {
  }

  lemma Regroup(done: seq<Token>, value: seq<Token>, rest: seq<Token>)
    ensures done + (value + rest) == done + value + rest
  {
  }

  lemma {:induction false} ItemsArePrinted(left: seq<Token>, depth: nat, nodes: nat, max: nat, acc: Items)
    requires ParseItems(left, depth, nodes, max, acc).Ok?
    requires ProperItems(acc) && depth + ItemHeight(acc) <= MAX_DEPTH && nodes <= max
    ensures var p := ParseItems(left, depth, nodes, max, acc).value;
            && PrintItems(acc) + left == PrintItems(p.items) + ([CloseArray] + p.left)
            && ProperItems(p.items) && depth + ItemHeight(p.items) <= MAX_DEPTH
            && p.nodes == nodes + ItemNodes(p.items) - ItemNodes(acc) && p.nodes <= max
    decreases |left|, 2
  {
    if left[0].CloseArray? {
      assert left == [left[0]] + left[1..];
    } else {
      ReadIsPrinted(left, depth + 1, nodes, max);
      var v := ParseValue(left, depth + 1, nodes, max).value;
      ItemsArePrinted(v.left, depth, v.nodes, max, ItemsThen(acc, v.doc));
      Regroup(PrintItems(acc), Print(v.doc), v.left);
    }
  }

  // ------------------------------------------------------- what is in bounds is accepted

  /** Reading inverts printing, whatever follows. */
  lemma {:induction false} PrintedIsRead(d: Doc, rest: seq<Token>, depth: nat, nodes: nat, max: nat)
    requires Within(d, depth, nodes, max)
    ensures ParseValue(Print(d) + rest, depth, nodes, max) == Ok(Read(d, rest, nodes + Nodes(d)))
    decreases d, 2
  {
    match d
    case ObjectDoc(fs) =>
      var inside := PrintFields(fs);
      FieldsAreRead(fs, inside + ([CloseObject] + rest), [CloseObject] + rest, depth, nodes + 1, max);
      ObjectIsRead(fs, inside, rest, depth, nodes, max);
    case ArrayDoc(vs) =>
      var inside := PrintItems(vs);
      ItemsAreRead(vs, inside + ([CloseArray] + rest), [CloseArray] + rest, depth, nodes + 1, max);
      ArrayIsRead(vs, inside, rest, depth, nodes, max);
    case Scalar(t) =>
      assert (Print(d) + rest)[1..] == rest;
  }

  lemma ObjectIsRead(fs: Fields, inside: seq<Token>, rest: seq<Token>, depth: nat, nodes: nat, max: nat)
    requires depth <= MAX_DEPTH && nodes + 1 <= max
    requires ParseFields(inside + ([CloseObject] + rest), depth, nodes + 1, max, NoFields)
             == ParseFields([CloseObject] + rest, depth, nodes + 1 + FieldNodes(fs), max, fs)
    ensures ParseValue([OpenObject] + (inside + [CloseObject]) + rest, depth, nodes, max)
            == Ok(Read(ObjectDoc(fs), rest, nodes + 1 + FieldNodes(fs)))
  {
    assert ([OpenObject] + (inside + [CloseObject]) + rest)[1..] == inside + ([CloseObject] + rest);
    assert ([CloseObject] + rest)[1..] == rest;
  }

  lemma ArrayIsRead(vs: Items, inside: seq<Token>, rest: seq<Token>, depth: nat, nodes: nat, max: nat)
    requires depth <= MAX_DEPTH && nodes + 1 <= max
    requires ParseItems(inside + ([CloseArray] + rest), depth, nodes + 1, max, NoItems)
             == ParseItems([CloseArray] + rest, depth, nodes + 1 + ItemNodes(vs), max, vs)
    ensures ParseValue([OpenArray] + (inside + [CloseArray]) + rest, depth, nodes, max)
            == Ok(Read(ArrayDoc(vs), rest, nodes + 1 + ItemNodes(vs)))
  {
    assert ([OpenArray] + (inside + [CloseArray]) + rest)[1..] == inside + ([CloseArray] + rest);
    assert ([CloseArray] + rest)[1..] == rest;
  }

  lemma {:induction false} FieldsAreRead(fs: Fields, left: seq<Token>, tail: seq<Token>, depth: nat, nodes: nat,
                                         max: nat)
    requires ProperFields(fs) && depth + FieldHeight(fs) <= MAX_DEPTH && nodes + FieldNodes(fs) <= max
    requires left == PrintFields(fs) + tail
    ensures ParseFields(left, depth, nodes, max, NoFields)
            == ParseFields(tail, depth, nodes + FieldNodes(fs), max, fs)
    decreases fs, 1
  {
    if fs.NoFields? {
      NothingBefore(tail);
    } else {
      var b, k, v := fs.before, fs.key, fs.value;
      var next := [StringToken(k)] + (Print(v) + tail);
      StepOver(PrintFields(b), StringToken(k), Print(v), tail);
      OneMoreFieldIsRead(b, k, v, left, next, tail, depth, nodes, max);
    }
  }

  lemma {:induction false} OneMoreFieldIsRead(b: Fields, k: string, v: Doc, left: seq<Token>, next: seq<Token>,
                                              tail: seq<Token>, depth: nat, nodes: nat, max: nat)
    requires ProperFields(b) && k !in Keys(b) && depth + FieldHeight(b) <= MAX_DEPTH && nodes + FieldNodes(b) <= max
    requires Within(v, depth + 1, nodes + FieldNodes(b), max)
    requires left == PrintFields(b) + next && next == [StringToken(k)] + (Print(v) + tail)
    ensures ParseFields(left, depth, nodes, max, NoFields)
            == ParseFields(tail, depth, nodes + FieldNodes(b) + Nodes(v), max, FieldsThen(b, k, v))
    decreases FieldsThen(b, k, v), 0
  {
    FieldsAreRead(b, left, next, depth, nodes, max);
    NextFieldIsRead(k, v, next, tail, depth, nodes + FieldNodes(b), max, b);
  }

  lemma Opens(key: Token, value: seq<Token>)
    ensures ([key] + value)[0] == key && ([key] + value)[1..] == value
  {
  }

  lemma {:induction false} NextFieldIsRead(k: string, v: Doc, next: seq<Token>, tail: seq<Token>, depth: nat,
                                           nodes: nat, max: nat, acc: Fields)
    requires Within(v, depth + 1, nodes, max) && k !in Keys(acc)
    requires next == [StringToken(k)] + (Print(v) + tail)
    ensures ParseFields(next, depth, nodes, max, acc)
            == ParseFields(tail, depth, nodes + Nodes(v), max, FieldsThen(acc, k, v))
    decreases v, 3
  {
    PrintedIsRead(v, tail, depth + 1, nodes, max);
    Opens(StringToken(k), Print(v) + tail);
    FieldNext(k, v, nodes + Nodes(v), next, tail, depth, nodes, max, acc);
  }

  lemma FieldNext(k: string, v: Doc, met: nat, next: seq<Token>, tail: seq<Token>, depth: nat, nodes: nat,
                  max: nat, acc: Fields)
    requires k !in Keys(acc) && next != [] && next[0] == StringToken(k)
    requires ParseValue(next[1..], depth + 1, nodes, max) == Ok(Read(v, tail, met))
    ensures ParseFields(next, depth, nodes, max, acc)
            == ParseFields(tail, depth, met, max, FieldsThen(acc, k, v))
  {
  }

  lemma {:induction false} ItemsAreRead(vs: Items, left: seq<Token>, tail: seq<Token>, depth: nat, nodes: nat, max: nat)
    requires ProperItems(vs) && depth + ItemHeight(vs) <= MAX_DEPTH && nodes + ItemNodes(vs) <= max
    requires left == PrintItems(vs) + tail
    ensures ParseItems(left, depth, nodes, max, NoItems) == ParseItems(tail, depth, nodes + ItemNodes(vs), max, vs)
    decreases vs, 1
  {
    if vs.NoItems? {
      NothingBefore(tail);
    } else {
      var b, v := vs.before, vs.value;
      Regroup(PrintItems(b), Print(v), tail);
      OneMoreItemIsRead(b, v, left, Print(v) + tail, tail, depth, nodes, max);
    }
  }

  lemma {:induction false} OneMoreItemIsRead(b: Items, v: Doc, left: seq<Token>, next: seq<Token>, tail: seq<Token>,
                                             depth: nat, nodes: nat, max: nat)
    requires ProperItems(b) && depth + ItemHeight(b) <= MAX_DEPTH && nodes + ItemNodes(b) <= max
    requires Within(v, depth + 1, nodes + ItemNodes(b), max)
    requires left == PrintItems(b) + next && next == Print(v) + tail
    ensures ParseItems(left, depth, nodes, max, NoItems)
            == ParseItems(tail, depth, nodes + ItemNodes(b) + Nodes(v), max, ItemsThen(b, v))
    decreases ItemsThen(b, v), 0
  {
    ItemsAreRead(b, left, next, depth, nodes, max);
    NextItemIsRead(v, next, tail, depth, nodes + ItemNodes(b), max, b);
  }

  lemma {:induction false} NextItemIsRead(v: Doc, next: seq<Token>, tail: seq<Token>, depth: nat, nodes: nat, max: nat,
                                          acc: Items)
    requires Within(v, depth + 1, nodes, max)
    requires next == Print(v) + tail
    ensures ParseItems(next, depth, nodes, max, acc)
            == ParseItems(tail, depth, nodes + Nodes(v), max, ItemsThen(acc, v))
    decreases v, 3
  {
    PrintedIsRead(v, tail, depth + 1, nodes, max);
    StartsAValue(v, tail);
    ItemNext(v, nodes + Nodes(v), next, tail, depth, nodes, max, acc);
  }

  lemma ItemNext(v: Doc, met: nat, next: seq<Token>, tail: seq<Token>, depth: nat, nodes: nat, max: nat, acc: Items)
    requires next != [] && !Closes(next[0])
    requires ParseValue(next, depth + 1, nodes, max) == Ok(Read(v, tail, met))
    ensures ParseItems(next, depth, nodes, max, acc)
            == ParseItems(tail, depth, met, max, ItemsThen(acc, v))
  {
  }

  lemma StartsAValue(d: Doc, rest: seq<Token>)
    requires Proper(d)
    ensures var s := Print(d) + rest; s != [] && !Closes(s[0])
  {
  }

  // ---------------------------------------------------------------- what tokens spell

  /** The tokens spell the value, which holds at most so many values and levels below it. */
  ghost predicate Spells(v: Value, toks: seq<Token>, size: nat, levels: nat)
    decreases v, 1
  {
    size > 0 &&
    match v
    case Object(fields) => exists inside ::
      toks == [OpenObject] + (inside + [CloseObject]) && SpellsFields(v, fields, inside, size - 1, levels)
    case Array(items) => exists inside ::
      toks == [OpenArray] + (inside + [CloseArray]) && SpellsItems(items, inside, size - 1, levels)
    case String(s) => toks == [StringToken(s)]
    case Number(l) => toks == [NumberToken(l)]
    case Bool(b) => toks == [BoolToken(b)]
    case Null => toks == [NullToken]
  }

  /** Item after item in their order. */
  ghost predicate SpellsItems(items: seq<Value>, toks: seq<Token>, size: nat, levels: nat)
    decreases items, 1
  {
    if items == [] then toks == []
    else exists front, s, last, t :: EndsInItem(items, toks, size, levels, front, s, last, t)
  }

  ghost predicate EndsInItem(items: seq<Value>, toks: seq<Token>, size: nat, levels: nat,
                             front: seq<Token>, s: nat, last: seq<Token>, t: nat)
    requires items != []
    decreases items, 0
  {
    && toks == front + last && s + t <= size && levels > 0
    && SpellsItems(items[..|items| - 1], front, s, levels) && Spells(items[|items| - 1], last, t, levels - 1)
  }

  /** Key after key in whatever order, each once and before its value. */
  ghost predicate SpellsFields(v: Value, fields: map<string, Value>, toks: seq<Token>, size: nat, levels: nat)
    requires v.Object? && forall key :: key in fields ==> key in v.fields && fields[key] == v.fields[key]
    decreases v, 0, |fields|, 1
  {
    if fields == map[] then toks == []
    else exists key, front, s, last, t :: EndsInField(v, fields, toks, size, levels, key, front, s, last, t)
  }

  ghost predicate EndsInField(v: Value, fields: map<string, Value>, toks: seq<Token>, size: nat, levels: nat,
                              key: string, front: seq<Token>, s: nat, last: seq<Token>, t: nat)
    requires v.Object? && forall k :: k in fields ==> k in v.fields && fields[k] == v.fields[k]
    decreases v, 0, |fields|, 0
  {
    && key in fields && toks == front + ([StringToken(key)] + last) && s + t <= size && levels > 0
    && SpellsFields(v, fields - {key}, front, s, levels) && Spells(v.fields[key], last, t, levels - 1)
  }

  /** A document's tokens spell what it denotes. */
  lemma {:induction false} PrintSpells(d: Doc, size: nat, levels: nat)
    requires Proper(d) && Nodes(d) <= size && Height(d) <= levels
    ensures Spells(Denote(d), Print(d), size, levels)
    decreases d
  {
    match d
    case ObjectDoc(fs) =>
      PrintSpellsFields(fs, Denote(d), size - 1, levels);
    case ArrayDoc(vs) =>
      PrintSpellsItems(vs, size - 1, levels);
    case Scalar(_) =>
  }

  lemma {:induction false} PrintSpellsItems(vs: Items, size: nat, levels: nat)
    requires ProperItems(vs) && ItemNodes(vs) <= size && ItemHeight(vs) <= levels
    ensures SpellsItems(DenoteItems(vs), PrintItems(vs), size, levels)
    decreases vs
  {
    if vs.ItemsThen? {
      PrintSpellsItems(vs.before, ItemNodes(vs.before), levels);
      PrintSpells(vs.value, Nodes(vs.value), levels - 1);
      assert DenoteItems(vs)[..|DenoteItems(vs)| - 1] == DenoteItems(vs.before);
      assert EndsInItem(DenoteItems(vs), PrintItems(vs), size, levels, PrintItems(vs.before), ItemNodes(vs.before),
                        Print(vs.value), Nodes(vs.value));
    }
  }

  lemma {:induction false} PrintSpellsFields(fs: Fields, whole: Value, size: nat, levels: nat)
    requires ProperFields(fs) && FieldNodes(fs) <= size && FieldHeight(fs) <= levels && whole.Object?
    requires forall key :: key in DenoteFields(fs) ==> key in whole.fields && DenoteFields(fs)[key] == whole.fields[key]
    ensures SpellsFields(whole, DenoteFields(fs), PrintFields(fs), size, levels)
    decreases fs
  {
    if fs.FieldsThen? {
      assert DenoteFields(fs) - {fs.key} == DenoteFields(fs.before);
      PrintSpellsFields(fs.before, whole, FieldNodes(fs.before), levels);
      PrintSpells(fs.value, Nodes(fs.value), levels - 1);
      assert EndsInField(whole, DenoteFields(fs), PrintFields(fs), size, levels, fs.key, PrintFields(fs.before),
                         FieldNodes(fs.before), Print(fs.value), Nodes(fs.value));
    }
  }

  /** Tokens that spell a value print a document that denotes it. */
  lemma {:induction false} SpelledIsPrinted(v: Value, toks: seq<Token>, size: nat, levels: nat) returns (d: Doc)
    requires Spells(v, toks, size, levels)
    ensures Print(d) == toks && Denote(d) == v && Proper(d) && Nodes(d) <= size && Height(d) <= levels
    decreases v, 1
  {
    match v
    case Object(fields) =>
      var inside :| toks == [OpenObject] + (inside + [CloseObject])
                    && SpellsFields(v, fields, inside, size - 1, levels);
      var fs := SpelledFields(v, fields, inside, size - 1, levels);
      d := ObjectDoc(fs);
    case Array(items) =>
      var inside :| toks == [OpenArray] + (inside + [CloseArray])
                    && SpellsItems(items, inside, size - 1, levels);
      var vs := SpelledItems(items, inside, size - 1, levels);
      d := ArrayDoc(vs);
    case _ =>
      d := Scalar(toks[0]);
  }

  lemma {:induction false} SpelledItems(items: seq<Value>, toks: seq<Token>, size: nat, levels: nat) returns (vs: Items)
    requires SpellsItems(items, toks, size, levels)
    ensures PrintItems(vs) == toks && DenoteItems(vs) == items && ProperItems(vs)
    ensures ItemNodes(vs) <= size && ItemHeight(vs) <= levels
    decreases items, 0
  {
    if items == [] {
      vs := NoItems;
    } else {
      var n := |items| - 1;
      var front, s, last, t :| EndsInItem(items, toks, size, levels, front, s, last, t);
      var before := SpelledItems(items[..n], front, s, levels);
      var value := SpelledIsPrinted(items[n], last, t, levels - 1);
      vs := ItemsThen(before, value);
    }
  }

  lemma {:induction false} SpelledFields(v: Value, fields: map<string, Value>, toks: seq<Token>, size: nat, levels: nat)
    returns (fs: Fields)
    requires v.Object? && forall key :: key in fields ==> key in v.fields && fields[key] == v.fields[key]
    requires SpellsFields(v, fields, toks, size, levels)
    ensures PrintFields(fs) == toks && DenoteFields(fs) == fields && ProperFields(fs)
    ensures FieldNodes(fs) <= size && FieldHeight(fs) <= levels
    decreases v, 0, |fields|
  {
    if fields == map[] {
      fs := NoFields;
    } else {
      var key, front, s, last, t :| EndsInField(v, fields, toks, size, levels, key, front, s, last, t);
      var before := SpelledFields(v, fields - {key}, front, s, levels);
      var value := SpelledIsPrinted(v.fields[key], last, t, levels - 1);
      OneMoreField(fields, before, key, value);
      fs := FieldsThen(before, key, value);
    }
  }

  lemma OneMoreField(fields: map<string, Value>, before: Fields, key: string, value: Doc)
    requires key in fields && DenoteFields(before) == fields - {key} && Denote(value) == fields[key]
    ensures DenoteFields(FieldsThen(before, key, value)) == fields && key !in Keys(before)
  {
    assert (fields - {key})[key := fields[key]] == fields;
  }

  // ---------------------------------------------------------------- the reader

  /** What the reader answers to a parse. */
  function Answer(p: Result<Read, JsonError>): Result<Value, JsonError> {
    match p case Err(e) => Err(e) case Ok(v) => Ok(Denote(v.doc))
  }

  class Reader {
    /** The tokens the decoder has not handed out yet. */
    var left: seq<Token>
    var nodes: nat
    const maxNodes: nat

    constructor (toks: seq<Token>, maxNodes: nat)
      ensures left == toks && nodes == 0 && this.maxNodes == maxNodes
    {
      left, nodes, this.maxNodes := toks, 0, maxNodes;
    }

    /** Is there another element before the closing token? */
    predicate More()
      reads this
    {
      left != [] && !Closes(left[0])
    }

    method Token() returns (t: Result<Token, JsonError>)
      modifies this`left
      ensures old(left) == [] ==> t == Err(Truncated) && left == []
      ensures old(left) != [] ==> left == old(left)[1..]
      ensures old(left) != [] ==> t == if old(left)[0].Garbage? then Err(Syntax) else Ok(old(left)[0])
    {
      if left == [] {
        return Err(Truncated);
      }
      t := if left[0].Garbage? then Err(Syntax) else Ok(left[0]);
      left := left[1..];
    }

    method Value(depth: nat) returns (r: Result<Value, JsonError>)
      modifies this
      ensures var p := ParseValue(old(left), depth, old(nodes), maxNodes);
              r == Answer(p) && (p.Ok? ==> left == p.value.left && nodes == p.value.nodes)
      decreases |left|, 1
    {
      if depth > MAX_DEPTH {
        return Err(TooDeep);
      }
      nodes := nodes + 1;
      if nodes > maxNodes {
        return Err(TooManyValues);
      }
      var tok := Token();
      if tok.Err? {
        return Err(tok.error);
      }
      match tok.value {
        case OpenObject =>
          r := FieldsOf(depth);
        case OpenArray =>
          r := ItemsOf(depth);
        case StringToken(s) =>
          r := Ok(String(s));
        case NumberToken(l) =>
          r := Ok(Number(l));
        case BoolToken(b) =>
          r := Ok(Bool(b));
        case NullToken =>
          r := Ok(Null);
        case _ =>
          r := Err(Syntax);
      }
    }

    method FieldsOf(depth: nat) returns (r: Result<Value, JsonError>)
      modifies this
      ensures var p := ParseFields(old(left), depth, old(nodes), maxNodes, NoFields);
              match p
              case Err(e) => r == Err(e)
              case Ok(o) => r == Ok(Object(DenoteFields(o.fields))) && left == o.left && nodes == o.nodes
      decreases |left|, 2
    {
      var obj: map<string, Value> := map[];
      ghost var all := ParseFields(left, depth, nodes, maxNodes, NoFields);
      ghost var acc := NoFields;
      while More()
        invariant obj == DenoteFields(acc) && |left| <= |old(left)|
        invariant all == ParseFields(left, depth, nodes, maxNodes, acc)
        decreases |left|
      {
        var kt := Token();
        if kt.Err? {
          return Err(kt.error);
        }
        if !kt.value.StringToken? {
          return Err(KeyNotString);
        }
        var key := kt.value.s;
        if key in obj {
          return Err(DuplicateKey);
        }
        ghost var p := ParseValue(left, depth + 1, nodes, maxNodes);
        var v := Value(depth + 1);
        if v.Err? {
          return Err(v.error);
        }
        obj := obj[key := v.value];
        acc := FieldsThen(acc, key, p.value.doc);
      }
      var close := Token();
      if close.Err? {
        return Err(close.error);
      }
      return if close.value.CloseObject? then Ok(Object(obj)) else Err(Syntax);
    }

    method ItemsOf(depth: nat) returns (r: Result<Value, JsonError>)
      modifies this
      ensures var p := ParseItems(old(left), depth, old(nodes), maxNodes, NoItems);
              match p
              case Err(e) => r == Err(e)
              case Ok(a) => r == Ok(Array(DenoteItems(a.items))) && left == a.left && nodes == a.nodes
      decreases |left|, 2
    {
      var arr: seq<Value> := [];
      ghost var all := ParseItems(left, depth, nodes, maxNodes, NoItems);
      ghost var acc := NoItems;
      while More()
        invariant arr == DenoteItems(acc) && |left| <= |old(left)|
        invariant all == ParseItems(left, depth, nodes, maxNodes, acc)
        decreases |left|
      {
        ghost var p := ParseValue(left, depth + 1, nodes, maxNodes);
        var v := Value(depth + 1);
        if v.Err? {
          return Err(v.error);
        }
        arr := arr + [v.value];
        acc := ItemsThen(acc, p.value.doc);
      }
      var close := Token();
      if close.Err? {
        return Err(close.error);
      }
      return if close.value.CloseArray? then Ok(Array(arr)) else Err(Syntax);
    }
  }

  /** The tokens print exactly one document, and that one within the bounds. */
  ghost predicate Accepts(d: Doc, toks: seq<Token>, max: nat) {
    Print(d) == toks && Within(d, 0, 0, max)
  }

  /** Tokens spell a value within the bounds exactly when they print a document that denotes it. */
  lemma AcceptedIsSpelled(toks: seq<Token>, max: nat)
    ensures forall v :: Spells(v, toks, max, 16) <==> exists d :: Accepts(d, toks, max) && Denote(d) == v
  {
    forall v ensures Spells(v, toks, max, 16) <==> exists d :: Accepts(d, toks, max) && Denote(d) == v {
      if Spells(v, toks, max, 16) {
        var d := SpelledIsPrinted(v, toks, max, 16);
        assert Accepts(d, toks, max);
      }
      if d :| Accepts(d, toks, max) && Denote(d) == v {
        PrintSpells(d, max, 16);
      }
    }
  }

  /** The reader accepts exactly the documents of nesting at most sixteen, of at most the
      allowed number of values and of no repeated key, each as what it denotes, and refuses
      every other sequence of tokens. */
  method Decode(toks: seq<Token>, maxNodes: nat) returns (r: Result<Value, JsonError>)
    ensures r.Ok? <==> exists d :: Accepts(d, toks, maxNodes)
    ensures forall d :: Accepts(d, toks, maxNodes) ==> r == Ok(Denote(d))
    ensures forall v :: r == Ok(v) <==> Spells(v, toks, maxNodes, 16)
  {
    var st := new Reader(toks, maxNodes);
    AcceptedIsSpelled(toks, maxNodes);
    ghost var p := ParseValue(toks, 0, 0, maxNodes);
    r := st.Value(0);
    forall d | Accepts(d, toks, maxNodes) ensures p == Ok(Read(d, [], Nodes(d))) {
      PrintedIsRead(d, [], 0, 0, maxNodes);
      assert Print(d) + [] == toks;
    }
    if r.Err? {
      return r;
    }
    ReadIsPrinted(toks, 0, 0, maxNodes);
    var more := st.Token();
    if more != Err(Truncated) {
      return Err(if more.Err? then more.error else MoreAfterValue);
    }
    assert Accepts(p.value.doc, toks, maxNodes) by {
      assert Print(p.value.doc) + [] == Print(p.value.doc);
    }
  }
}
