/**
 * The texts that the parser accepts, as a grammar: the values of RFC 8259 with any control bytes between the tokens,
 * and numbers and literals as far as they are recognised.
 */
module JsonGrammar {
  import opened Common
  import opened Bits
  import opened CStrings
  import opened Occurrence
  import opened JsonString
  import opened Json
  import opened JsonParse
  import opened JsonRoundTrip
  import opened JsonParsed
  import opened JsonMinifyParse
  import opened JsonLiteral

  // ----- the grammar

  type Gap = seq<byte>

  /** A string literal with its quotes, and its text. */
  datatype Lit = Lit(spelled: seq<byte>, text: seq<byte>)

  /** A value as it is spelled; a gap stands behind every token that is not the last. */
  datatype Doc =
    | NullDoc
    | FalseDoc
    | TrueDoc
    | NumberDoc(token: seq<byte>)
    | StringDoc(lit: Lit)
    | EmptyArrayDoc(gap: Gap)
    | ArrayDoc(gap: Gap, items: Items)
    | EmptyObjectDoc(gap: Gap)
    | ObjectDoc(gap: Gap, fields: Fields)

  datatype Items = LastItem(value: Doc, gap: Gap) | MoreItems(value: Doc, gap: Gap, after: Gap, next: Items)

  datatype Field = Field(name: Lit, gap: Gap, after: Gap, value: Doc, last: Gap)

  datatype Fields = LastField(field: Field) | MoreFields(field: Field, after: Gap, next: Fields)

  function Spell(doc: Doc): seq<byte> {
    match doc
    case NullDoc => NULL_TEXT
    case FalseDoc => FALSE_TEXT
    case TrueDoc => TRUE_TEXT
    case NumberDoc(token) => token
    case StringDoc(lit) => lit.spelled
    case EmptyArrayDoc(g) => [OPEN_ARRAY] + (g + [CLOSE_ARRAY])
    case ArrayDoc(g, items) => [OPEN_ARRAY] + g + SpellItems(items)
    case EmptyObjectDoc(g) => [OPEN_OBJECT] + (g + [CLOSE_OBJECT])
    case ObjectDoc(g, fields) => [OPEN_OBJECT] + g + SpellFields(fields)
  }

  function SpellItems(items: Items): seq<byte> {
    match items
    case LastItem(v, h) => Spell(v) + (h + [CLOSE_ARRAY])
    case MoreItems(v, h, g, next) => Spell(v) + (h + [COMMA]) + (g + SpellItems(next))
  }

  function SpellFields(fields: Fields): seq<byte> {
    match fields
    case LastField(f) => SpellName(f) + Spell(f.value) + (f.last + [CLOSE_OBJECT])
    case MoreFields(f, g, next) => SpellName(f) + Spell(f.value) + (f.last + [COMMA]) + (g + SpellFields(next))
  }

  function SpellName(f: Field): seq<byte> {
    f.name.spelled + (f.gap + [COLON]) + f.after
  }

  function Meaning(k: NumberCodec, doc: Doc): Value {
    match doc
    case NullDoc => Null
    case FalseDoc => False
    case TrueDoc => True
    case NumberDoc(token) => Number(k.scan(token).number)
    case StringDoc(lit) => String(lit.text)
    case EmptyArrayDoc(_) => Array(NoElements)
    case ArrayDoc(_, items) => Array(ItemsMeaning(k, items))
    case EmptyObjectDoc(_) => Object(NoMembers)
    case ObjectDoc(_, fields) => Object(FieldsMeaning(k, fields))
  }

  function ItemsMeaning(k: NumberCodec, items: Items): Elements {
    match items
    case LastItem(v, _) => Element(Meaning(k, v), NoElements)
    case MoreItems(v, _, _, next) => Element(Meaning(k, v), ItemsMeaning(k, next))
  }

  function FieldsMeaning(k: NumberCodec, fields: Fields): Members {
    match fields
    case LastField(f) => Member(f.name.text, Meaning(k, f.value), NoMembers)
    case MoreFields(f, _, next) => Member(f.name.text, Meaning(k, f.value), FieldsMeaning(k, next))
  }

  /** Number bytes, of which `strtod` recognises all. */
  ghost predicate GoodToken(k: NumberCodec, token: seq<byte>) {
    && 0 < |token| <= 63 && NumberStart(token[0]) && (forall i :: 0 <= i < |token| ==> NumberByte(token[i]))
    && k.scan(token).length == |token|
  }

  /** A literal that the parser takes for its text; `JsonLiteral` tells which ones these are. */
  ghost predicate GoodLit(lit: Lit) {
    0 !in lit.spelled && ParseString(lit.spelled + [0], 0) == Some(Parsed(lit.text, |lit.spelled|))
  }

  ghost predicate GoodDoc(k: NumberCodec, doc: Doc) {
    match doc
    case NumberDoc(token) => GoodToken(k, token)
    case StringDoc(lit) => GoodLit(lit)
    case EmptyArrayDoc(g) => Controls(g)
    case ArrayDoc(g, items) => Controls(g) && GoodItems(k, items)
    case EmptyObjectDoc(g) => Controls(g)
    case ObjectDoc(g, fields) => Controls(g) && GoodFields(k, fields)
    case _ => true
  }

  ghost predicate GoodItems(k: NumberCodec, items: Items) {
    match items
    case LastItem(v, h) => GoodDoc(k, v) && Controls(h)
    case MoreItems(v, h, g, next) => GoodDoc(k, v) && Controls(h) && Controls(g) && GoodItems(k, next)
  }

  ghost predicate GoodFields(k: NumberCodec, fields: Fields) {
    match fields
    case LastField(f) => GoodName(f) && GoodDoc(k, f.value)
    case MoreFields(f, g, next) => GoodName(f) && GoodDoc(k, f.value) && Controls(g) && GoodFields(k, next)
  }

  ghost predicate GoodName(f: Field) {
    GoodLit(f.name) && Controls(f.gap) && Controls(f.after) && Controls(f.last)
  }

  // ----- what the grammar spells is accepted

  /** A literal made of pieces. */
  lemma {:induction false} PiecesAreLiteral(ps: Pieces)
    requires ArePieces(ps) && 0 !in LiteralOf(ps)
    ensures GoodLit(Lit(LiteralOf(ps), CString(MeantAll(ps))))
  {
    var c := LiteralOf(ps) + [0];
    assert c[0..0 + |LiteralOf(ps)|] == LiteralOf(ps);
    LiteralParses(c, 0, ps);
  }

  lemma {:induction false} LitReads(k: NumberCodec, lit: Lit, d: nat)
    requires GoodLit(lit)
    ensures Reads(k, lit.spelled, String(lit.text), d) && lit.spelled != [] && lit.spelled[0] == QUOTE
  {
    var c := lit.spelled + [0];
    StringMinified(k, c, 0, lit.text, |lit.spelled|, d);
    assert c[0..|lit.spelled|] == lit.spelled;
  }

  lemma {:induction false} LitName(k: NumberCodec, g: Gap, f: Field, un: seq<byte>)
    requires GoodName(f) && Controls(g) && un == g + SpellName(f)
    ensures ReadsName(k, un, f.name.text) && f.name.spelled != [] && f.name.spelled[0] == QUOTE
  {
    var lit := f.name.spelled;
    var c := lit + [0];
    LitReads(k, f.name, 0);
    assert c[0..|lit|] == lit;
    assert un == g + c[0..|lit|] + (f.gap + [COLON]) + f.after;
    NameReads(k, c, 0, |lit|, f.name.text, g, f.gap, f.after, un);
  }

  /** A value of the grammar is read as what it means, wherever it stands, and starts with a token. */
  lemma {:induction false} DocReads(k: NumberCodec, doc: Doc, d: nat)
    requires GoodDoc(k, doc) && d + Depth(Meaning(k, doc)) <= NESTING_LIMIT
    ensures Reads(k, Spell(doc), Meaning(k, doc), d) && Starts(Spell(doc))
    decreases doc, 1
  {
    match doc {
      case ArrayDoc(g, items) => ArrayDocReads(k, g, items, d);
      case ObjectDoc(g, fields) => ObjectDocReads(k, g, fields, d);
      case _ => PlainDocReads(k, doc, d);
    }
  }

  /** The first byte of a value or a name. */
  predicate Starts(u: seq<byte>) {
    u != [] && 32 < u[0] < 128 && u[0] != CLOSE_ARRAY && u[0] != CLOSE_OBJECT
  }

  lemma {:induction false} PlainDocReads(k: NumberCodec, doc: Doc, d: nat)
    requires GoodDoc(k, doc) && d + Depth(Meaning(k, doc)) <= NESTING_LIMIT && !doc.ArrayDoc? && !doc.ObjectDoc?
    ensures Reads(k, Spell(doc), Meaning(k, doc), d) && Starts(Spell(doc))
  {
    match doc {
      case NullDoc => WordReads(k, NULL_TEXT, Null, d);
      case FalseDoc => WordReads(k, FALSE_TEXT, False, d);
      case TrueDoc => WordReads(k, TRUE_TEXT, True, d);
      case NumberDoc(token) => NumberReads(k, token, k.scan(token).number, d);
      case StringDoc(lit) => LitReads(k, lit, d);
      case EmptyArrayDoc(g) => EmptyArrayReads(k, g, d, Spell(doc));
      case EmptyObjectDoc(g) => EmptyObjectReads(k, g, d, Spell(doc));
    }
  }

  lemma {:induction false} ArrayDocReads(k: NumberCodec, g: Gap, items: Items, d: nat)
    requires Controls(g) && GoodItems(k, items) && d + 1 + ElementsDepth(ItemsMeaning(k, items)) <= NESTING_LIMIT
    ensures Reads(k, Spell(ArrayDoc(g, items)), Array(ItemsMeaning(k, items)), d) && Starts(Spell(ArrayDoc(g, items)))
    decreases items, 1
  {
    var us := SpellItems(items);
    assert [] + us == us;
    ItemsRead(k, [], items, d + 1, us);
    ArrayReads(k, g, us, ItemsMeaning(k, items), d, [OPEN_ARRAY] + g + us);
  }

  lemma {:induction false} ObjectDocReads(k: NumberCodec, g: Gap, fields: Fields, d: nat)
    requires Controls(g) && GoodFields(k, fields) && d + 1 + MembersDepth(FieldsMeaning(k, fields)) <= NESTING_LIMIT
    ensures Reads(k, Spell(ObjectDoc(g, fields)), Object(FieldsMeaning(k, fields)), d)
    ensures Starts(Spell(ObjectDoc(g, fields)))
    decreases fields, 1
  {
    var us := SpellFields(fields);
    assert [] + us == us;
    FieldsRead(k, [], fields, d + 1, us);
    ObjectReads(k, g, us, FieldsMeaning(k, fields), d, [OPEN_OBJECT] + g + us);
  }

  lemma {:induction false} ItemsRead(k: NumberCodec, g: Gap, items: Items, d: nat, u: seq<byte>)
    requires GoodItems(k, items) && Controls(g) && d + ElementsDepth(ItemsMeaning(k, items)) <= NESTING_LIMIT
    requires u == g + SpellItems(items)
    ensures ReadsElements(k, u, ItemsMeaning(k, items), d) && Starts(SpellItems(items))
    decreases items, 0
  {
    var uv, v := Spell(items.value), Meaning(k, items.value);
    DocReads(k, items.value, d);
    if items.LastItem? {
      LastItemReads(k, g, uv, items.gap, v, d, u);
    } else {
      var rest, next := items.after + SpellItems(items.next), ItemsMeaning(k, items.next);
      ItemsRead(k, items.after, items.next, d, rest);
      MoreItemsRead(k, g, uv, items.gap, v, d, rest, next, u);
    }
  }

  lemma {:induction false} LastItemReads(k: NumberCodec, g: Gap, uv: seq<byte>, h: Gap, v: Value, d: nat, u: seq<byte>)
    requires Controls(g) && Controls(h) && Reads(k, uv, v, d) && Starts(uv) && u == g + (uv + (h + [CLOSE_ARRAY]))
    ensures ReadsElements(k, u, Element(v, NoElements), d)
  {
    assert u == g + uv + (h + [CLOSE_ARRAY]);
    LastReads(k, g, uv, h, v, d, u);
  }

  lemma {:induction false} MoreItemsRead(k: NumberCodec, g: Gap, uv: seq<byte>, h: Gap, v: Value, d: nat,
                                         rest: seq<byte>, next: Elements, u: seq<byte>)
    requires Controls(g) && Controls(h) && Reads(k, uv, v, d) && Starts(uv) && ReadsElements(k, rest, next, d)
    requires u == g + (uv + (h + [COMMA]) + rest)
    ensures ReadsElements(k, u, Element(v, next), d)
  {
    assert u == g + uv + (h + [COMMA]) + rest;
    MoreReads(k, g, uv, h, v, d, rest, next, u);
  }

  lemma {:induction false} FieldsRead(k: NumberCodec, g: Gap, fields: Fields, d: nat, u: seq<byte>)
    requires GoodFields(k, fields) && Controls(g) && d + MembersDepth(FieldsMeaning(k, fields)) <= NESTING_LIMIT
    requires u == g + SpellFields(fields)
    ensures ReadsMembers(k, u, FieldsMeaning(k, fields), d) && Starts(SpellFields(fields))
    decreases fields, 0
  {
    var f := fields.field;
    var name, uv, v := SpellName(f), Spell(f.value), Meaning(k, f.value);
    DocReads(k, f.value, d);
    LitName(k, g, f, g + name);
    NameStarts(f, name);
    if fields.LastField? {
      LastFieldReads(k, g, name, uv, f.last, f.name.text, v, d, u);
    } else {
      var rest, next := fields.after + SpellFields(fields.next), FieldsMeaning(k, fields.next);
      FieldsRead(k, fields.after, fields.next, d, rest);
      MoreFieldsRead(k, g, name, uv, f.last, f.name.text, v, d, rest, next, u);
    }
  }

  lemma {:induction false} NameStarts(f: Field, name: seq<byte>)
    requires name == SpellName(f) && f.name.spelled != [] && f.name.spelled[0] == QUOTE
    ensures name != [] && name[0] == QUOTE
  {}

  lemma {:induction false} LastFieldReads(k: NumberCodec, g: Gap, name: seq<byte>, uv: seq<byte>, h: Gap,
                                          text: seq<byte>, v: Value, d: nat, u: seq<byte>)
    requires Controls(h) && ReadsName(k, g + name, text) && Reads(k, uv, v, d) && Starts(uv)
    requires u == g + (name + uv + (h + [CLOSE_OBJECT]))
    ensures ReadsMembers(k, u, Member(text, v, NoMembers), d)
  {
    assert u == g + name + uv + (h + [CLOSE_OBJECT]);
    LastMemberReads(k, g + name, uv, h, text, v, d, u);
  }

  lemma {:induction false} MoreFieldsRead(k: NumberCodec, g: Gap, name: seq<byte>, uv: seq<byte>, h: Gap,
                                          text: seq<byte>, v: Value, d: nat, rest: seq<byte>, next: Members,
                                          u: seq<byte>)
    requires Controls(h) && ReadsName(k, g + name, text) && Reads(k, uv, v, d) && Starts(uv)
    requires ReadsMembers(k, rest, next, d) && u == g + (name + uv + (h + [COMMA]) + rest)
    ensures ReadsMembers(k, u, Member(text, v, next), d)
  {
    assert u == g + name + uv + (h + [COMMA]) + rest;
    MoreMembersRead(k, g + name, uv, h, text, v, d, rest, next, u);
  }

  // ----- what is accepted is spelled by the grammar

  /** The bytes from `i` to `j`. */
  ghost predicate Slice(c: seq<byte>, i: nat, u: seq<byte>, j: nat) {
    Has(c, i, u) && j == i + |u|
  }

  lemma {:induction false} SliceJoin(c: seq<byte>, i: nat, a: seq<byte>, m: nat, b: seq<byte>, j: nat, u: seq<byte>)
    requires Slice(c, i, a, m) && Slice(c, m, b, j) && u == a + b
    ensures Slice(c, i, u, j)
  {
    HasJoin(c, i, a, b);
  }

  /** A gap, or a gap and a name, a value and the mark behind it, and with them what follows. */
  lemma {:induction false} SliceThree(c: seq<byte>, i: nat, g: seq<byte>, s: nat, uv: seq<byte>, f: nat, m: seq<byte>,
                                      p: nat)
    requires Slice(c, i, g, s) && Slice(c, s, uv, f) && Slice(c, f, m, p)
    ensures Slice(c, i, g + uv + m, p)
  {
    SliceJoin(c, i, g, s, uv, f, g + uv);
    SliceJoin(c, i, g + uv, f, m, p, g + uv + m);
  }

  lemma {:induction false} SliceFour(c: seq<byte>, i: nat, g: seq<byte>, s: nat, uv: seq<byte>, f: nat, m: seq<byte>,
                                     p: nat, rest: seq<byte>, e: nat)
    requires Slice(c, i, g, s) && Slice(c, s, uv, f) && Slice(c, f, m, p) && Slice(c, p, rest, e)
    ensures Slice(c, i, g + uv + m + rest, e)
  {
    SliceThree(c, i, g, s, uv, f, m, p);
    SliceJoin(c, i, g + uv + m, p, rest, e, g + uv + m + rest);
  }

  lemma {:induction false} SliceOf(c: seq<byte>, i: nat, j: nat)
    requires i <= j <= |c|
    ensures Slice(c, i, c[i..j], j)
  {}

  lemma {:induction false} ByteSlice(c: seq<byte>, i: nat, b: byte)
    requires i < |c| && c[i] == b
    ensures Slice(c, i, [b], i + 1)
  {
    assert c[i..i + 1] == [b];
  }

  /** The gap between two positions that the scanner skips. */
  lemma {:induction false} GapFound(c: seq<byte>, i: nat, j: nat) returns (g: Gap)
    requires NulEnded(c) && Blanks(c, i, j) && j < |c|
    ensures g == c[i..j] && Controls(g) && Slice(c, i, g, j)
  {
    g := c[i..j];
    forall b | b in g ensures 0 < b <= 32 {
      var n :| 0 <= n < |g| && g[n] == b;
      assert c[i + n] == b;
    }
  }

  /** A gap and the mark behind it. */
  lemma {:induction false} MarkFound(x: Scanner, k: NumberCodec, c: seq<byte>, f: nat, p: nat, b: byte)
    returns (g: Gap)
    requires Scans(x, k, c) && NulEnded(c) && f < |c| && p == x.skip(f) && p < |c| && x.at(p) == b && Mark(b)
    ensures Controls(g) && Slice(c, f, g + [b], p + 1) && !NumberByte(c[f])
  {
    SkippedGap(x, k, c, f, p);
    g := GapFound(c, f, p);
    ByteSlice(c, p, b);
    SliceJoin(c, f, g, p, [b], p + 1, g + [b]);
  }

  lemma {:induction false} LitFound(c: seq<byte>, a: nat, text: seq<byte>, b: nat) returns (lit: Lit)
    requires NulEnded(c) && a < |c| && ParseString(c, a) == Some(Parsed(text, b))
    ensures GoodLit(lit) && lit.text == text && Slice(c, a, lit.spelled, b)
  {
    var s := c[a..b];
    LiteralKept(c, a, text, b);
    var c' := s + [0];
    assert c'[0..0 + |s|] == s;
    LiteralReads(c, a, text, b, c', 0);
    lit := Lit(s, text);
    SliceOf(c, a, b);
    LiteralInside(c, a, text, b);
    forall z | z in s ensures z != 0 {
      var n :| 0 <= n < |s| && s[n] == z;
      assert c[a + n] == z;
    }
  }

  lemma {:induction false} LiteralInside(c: seq<byte>, a: nat, text: seq<byte>, b: nat)
    requires Text(c) && a < |c| && ParseString(c, a) == Some(Parsed(text, b))
    ensures b < |c|
  {}

  lemma {:induction false} ScalarDoc(k: NumberCodec, c: seq<byte>, i: nat, v: Value, e: nat) returns (doc: Doc)
    requires NulEnded(c) && i < |c| && ParseScalar(k, c, i) == Some(Parsed(v, e)) && e < |c| && !NumberByte(c[e])
    ensures GoodDoc(k, doc) && Meaning(k, doc) == v && Slice(c, i, Spell(doc), e)
  {
    if StartsWith(c, i, NULL_TEXT) {
      doc := NullDoc;
    } else if StartsWith(c, i, FALSE_TEXT) {
      doc := FalseDoc;
    } else if StartsWith(c, i, TRUE_TEXT) {
      doc := TrueDoc;
    } else if c[i] == QUOTE {
      var lit := LitFound(c, i, ParseString(c, i).value.item, e);
      doc := StringDoc(lit);
    } else {
      doc := NumberFound(k, c, i, v, e);
    }
  }

  lemma {:induction false} NumberFound(k: NumberCodec, c: seq<byte>, i: nat, v: Value, e: nat) returns (doc: Doc)
    requires Text(c) && i < |c| && ParseNumber(k, c, i) == Some(Parsed(v, e)) && NumberStart(c[i])
    requires e < |c| && !NumberByte(c[e])
    ensures GoodDoc(k, doc) && Meaning(k, doc) == v && Slice(c, i, Spell(doc), e)
  {
    var t := Token(c, i, 63);
    TokenBytes(c, i, 63);
    assert e == i + k.scan(t).length;
    assert k.scan(t).length == |t|;
    doc := NumberDoc(t);
  }

  lemma {:induction false} ValueDoc(x: Scanner, k: NumberCodec, c: seq<byte>, i: nat, d: nat, v: Value, e: nat)
    returns (doc: Doc)
    requires Scans(x, k, c) && NulEnded(c) && ValueIs(x, i, d, Some(Parsed(v, e))) && e < |c| && !NumberByte(c[e])
    ensures GoodDoc(k, doc) && Meaning(k, doc) == v && Slice(c, i, Spell(doc), e)
    decreases |c| - i, 1
  {
    ScanAt(x, k, c, i);
    if x.at(i) == OPEN_ARRAY {
      doc := ArrayFound(x, k, c, i, d, v, e);
    } else if x.at(i) == OPEN_OBJECT {
      doc := ObjectFound(x, k, c, i, d, v, e);
    } else {
      ScalarInverse(x, i, d, v, e);
      ScanScalar(x, k, c, i);
      doc := ScalarDoc(k, c, i, v, e);
    }
  }

  lemma {:induction false} ArrayFound(x: Scanner, k: NumberCodec, c: seq<byte>, i: nat, d: nat, v: Value, e: nat)
    returns (doc: Doc)
    requires Scans(x, k, c) && NulEnded(c) && ValueIs(x, i, d, Some(Parsed(v, e))) && x.at(i) == OPEN_ARRAY
    ensures GoodDoc(k, doc) && Meaning(k, doc) == v && Slice(c, i, Spell(doc), e)
    decreases |c| - i, 0
  {
    ScanAt(x, k, c, i);
    ByteSlice(c, i, OPEN_ARRAY);
    var p := ArrayInverse(x, i, d, v, e);
    if x.at(p) == CLOSE_ARRAY {
      var g := MarkFound(x, k, c, i + 1, p, CLOSE_ARRAY);
      doc := EmptyArrayDoc(g);
      SliceJoin(c, i, [OPEN_ARRAY], i + 1, g + [CLOSE_ARRAY], e, Spell(doc));
    } else {
      ElementsStart(x, k, c, i + 1, p, d + 1, v.elements, e);
      var g := GapFound(c, i + 1, p);
      var none, items := ItemsFound(x, k, c, p, d + 1, v.elements, e);
      SliceJoin(c, i, [OPEN_ARRAY], i + 1, g, p, [OPEN_ARRAY] + g);
      doc := ArrayDoc(g, items);
      assert none + SpellItems(items) == SpellItems(items);
      SliceJoin(c, i, [OPEN_ARRAY] + g, p, SpellItems(items), e, Spell(doc));
    }
  }

  /** Elements, and the gap in front of them. */
  lemma {:induction false} ItemsFound(x: Scanner, k: NumberCodec, c: seq<byte>, i: nat, d: nat, es: Elements, e: nat)
    returns (g: Gap, items: Items)
    requires Scans(x, k, c) && NulEnded(c) && ElementsAre(x, i, d, Some(Parsed(es, e)))
    ensures Controls(g) && GoodItems(k, items) && ItemsMeaning(k, items) == es && i < |c| && (c[i] > 32 ==> g == [])
    ensures Slice(c, i, g + SpellItems(items), e)
    decreases |c| - i, 2
  {
    var s, f, p := ElementsInverse(x, i, d, es, e);
    ValueStart(x, k, c, s, d, es.value, f);
    ScanAt(x, k, c, s);
    SkippedGap(x, k, c, i, s);
    g := GapFound(c, i, s);
    var h := MarkFound(x, k, c, f, p, x.at(p));
    var value := ValueDoc(x, k, c, s, d, es.value, f);
    if x.at(p) == COMMA {
      var after, next := ItemsFound(x, k, c, p + 1, d, es.next, e);
      items := MoreItems(value, h, after, next);
      SliceFour(c, i, g, s, Spell(value), f, h + [COMMA], p + 1, after + SpellItems(next), e);
      MoreItemsSpell(g, value, h, after, next);
    } else {
      items := LastItem(value, h);
      SliceThree(c, i, g, s, Spell(value), f, h + [CLOSE_ARRAY], p + 1);
      LastItemSpells(g, value, h);
    }
  }

  lemma {:induction false} MoreItemsSpell(g: Gap, value: Doc, h: Gap, after: Gap, next: Items)
    ensures g + SpellItems(MoreItems(value, h, after, next)) ==
            g + Spell(value) + (h + [COMMA]) + (after + SpellItems(next))
  {
    Regroup(g, Spell(value), h + [COMMA], after + SpellItems(next));
  }

  lemma {:induction false} LastItemSpells(g: Gap, value: Doc, h: Gap)
    ensures g + SpellItems(LastItem(value, h)) == g + Spell(value) + (h + [CLOSE_ARRAY])
  {
    Regroup(g, Spell(value), h + [CLOSE_ARRAY], []);
  }

  lemma {:induction false} Regroup(a: seq<byte>, b: seq<byte>, c: seq<byte>, d: seq<byte>)
    ensures a + (b + c + d) == a + b + c + d && a + (b + c) == a + b + c
  {}

  lemma {:induction false} ObjectFound(x: Scanner, k: NumberCodec, c: seq<byte>, i: nat, d: nat, v: Value, e: nat)
    returns (doc: Doc)
    requires Scans(x, k, c) && NulEnded(c) && ValueIs(x, i, d, Some(Parsed(v, e))) && x.at(i) == OPEN_OBJECT
    ensures GoodDoc(k, doc) && Meaning(k, doc) == v && Slice(c, i, Spell(doc), e)
    decreases |c| - i, 0
  {
    ScanAt(x, k, c, i);
    ByteSlice(c, i, OPEN_OBJECT);
    var p := ObjectInverse(x, i, d, v, e);
    if x.at(p) == CLOSE_OBJECT {
      var g := MarkFound(x, k, c, i + 1, p, CLOSE_OBJECT);
      doc := EmptyObjectDoc(g);
      SliceJoin(c, i, [OPEN_OBJECT], i + 1, g + [CLOSE_OBJECT], e, Spell(doc));
    } else {
      MembersStart(x, k, c, i + 1, p, d + 1, v.members, e);
      var g := GapFound(c, i + 1, p);
      var none, fields := FieldsFound(x, k, c, p, d + 1, v.members, e);
      SliceJoin(c, i, [OPEN_OBJECT], i + 1, g, p, [OPEN_OBJECT] + g);
      doc := ObjectDoc(g, fields);
      assert none + SpellFields(fields) == SpellFields(fields);
      SliceJoin(c, i, [OPEN_OBJECT] + g, p, SpellFields(fields), e, Spell(doc));
    }
  }

  datatype NameParts = NameParts(front: Gap, lit: Lit, gap: Gap, after: Gap)

  /** A name with its colon, and the gaps around it. */
  lemma {:induction false} NameFoundAt(x: Scanner, k: NumberCodec, c: seq<byte>, i: nat, name: seq<byte>, q: nat)
    returns (n: NameParts)
    requires Scans(x, k, c) && NulEnded(c) && NameIs(x, i, name, q) && x.at(q) != 0
    ensures GoodLit(n.lit) && n.lit.text == name && Controls(n.front) && Controls(n.gap) && Controls(n.after)
    ensures i < |c| && (c[i] > 32 ==> n.front == [])
    ensures Slice(c, i, n.front + (n.lit.spelled + (n.gap + [COLON]) + n.after), q)
  {
    var a, b, p := NameInverse(x, i, name, q);
    ScanName(x, k, c, a);
    var lit := LitFound(c, a, name, b);
    ScanAt(x, k, c, a);
    LiteralKept(c, a, name, b);
    SkippedGap(x, k, c, i, a);
    var g := GapFound(c, i, a);
    var h := MarkFound(x, k, c, b, p, COLON);
    SkippedGap(x, k, c, p + 1, q);
    var after := GapFound(c, p + 1, q);
    n := NameParts(g, lit, h, after);
    SliceThree(c, a, lit.spelled, b, h + [COLON], p + 1, after, q);
    SliceJoin(c, i, g, a, lit.spelled + (h + [COLON]) + after, q, g + (lit.spelled + (h + [COLON]) + after));
  }

  lemma {:induction false} FieldsFound(x: Scanner, k: NumberCodec, c: seq<byte>, i: nat, d: nat, ms: Members, e: nat)
    returns (g: Gap, fields: Fields)
    requires Scans(x, k, c) && NulEnded(c) && MembersAre(x, i, d, Some(Parsed(ms, e)))
    ensures Controls(g) && GoodFields(k, fields) && FieldsMeaning(k, fields) == ms && i < |c| && (c[i] > 32 ==> g == [])
    ensures Slice(c, i, g + SpellFields(fields), e)
    decreases |c| - i, 2
  {
    var q, f, p := MembersInverse(x, i, d, ms, e);
    ValueStart(x, k, c, q, d, ms.value, f);
    ScanAt(x, k, c, q);
    var name := NameFoundAt(x, k, c, i, ms.name, q);
    var last := MarkFound(x, k, c, f, p, x.at(p));
    var value := ValueDoc(x, k, c, q, d, ms.value, f);
    var field := Field(name.lit, name.gap, name.after, value, last);
    g := name.front;
    if x.at(p) == COMMA {
      var gap, next := FieldsFound(x, k, c, p + 1, d, ms.next, e);
      fields := MoreFields(field, gap, next);
      MoreFieldsFound(c, i, g, field, q, f, p, gap, next, e);
    } else {
      fields := LastField(field);
      LastFieldFound(c, i, g, field, q, f, p);
    }
  }

  lemma {:induction false} MoreFieldsFound(c: seq<byte>, i: nat, g: Gap, field: Field, q: nat, f: nat, p: nat,
                                           gap: Gap, next: Fields, e: nat)
    requires Slice(c, i, g + SpellName(field), q) && Slice(c, q, Spell(field.value), f)
    requires Slice(c, f, field.last + [COMMA], p + 1) && Slice(c, p + 1, gap + SpellFields(next), e)
    ensures Slice(c, i, g + SpellFields(MoreFields(field, gap, next)), e)
  {
    var name, uv, m, rest := g + SpellName(field), Spell(field.value), field.last + [COMMA], gap + SpellFields(next);
    SliceFour(c, i, name, q, uv, f, m, p + 1, rest, e);
    MoreFieldsSpell(g, field, gap, next);
  }

  lemma {:induction false} LastFieldFound(c: seq<byte>, i: nat, g: Gap, field: Field, q: nat, f: nat, p: nat)
    requires Slice(c, i, g + SpellName(field), q) && Slice(c, q, Spell(field.value), f)
    requires Slice(c, f, field.last + [CLOSE_OBJECT], p + 1)
    ensures Slice(c, i, g + SpellFields(LastField(field)), p + 1)
  {
    SliceThree(c, i, g + SpellName(field), q, Spell(field.value), f, field.last + [CLOSE_OBJECT], p + 1);
    LastFieldSpells(g, field);
  }

  lemma {:induction false} MoreFieldsSpell(g: Gap, f: Field, after: Gap, next: Fields)
    ensures g + SpellFields(MoreFields(f, after, next)) ==
            g + SpellName(f) + Spell(f.value) + (f.last + [COMMA]) + (after + SpellFields(next))
  {
    Regroup(g, SpellName(f), Spell(f.value), f.last + [COMMA]);
    Regroup(g, SpellName(f) + Spell(f.value), f.last + [COMMA], after + SpellFields(next));
  }

  lemma {:induction false} LastFieldSpells(g: Gap, f: Field)
    ensures g + SpellFields(LastField(f)) == g + SpellName(f) + Spell(f.value) + (f.last + [CLOSE_OBJECT])
  {
    Regroup(g, SpellName(f), Spell(f.value), f.last + [CLOSE_OBJECT]);
  }

  // ----- whole texts

  const BYTE_ORDER_MARK: seq<byte> := [0xEF, 0xBB, 0xBF]

  /** A text of the grammar: the value between gaps, perhaps behind a byte order mark. */
  ghost predicate Spells(k: NumberCodec, t: seq<byte>, marked: bool, g: Gap, doc: Doc, h: Gap) {
    && t == (if marked then BYTE_ORDER_MARK else []) + (g + Spell(doc) + h)
    && Controls(g) && Controls(h) && GoodDoc(k, doc) && Depth(Meaning(k, doc)) <= NESTING_LIMIT
  }

  /** The text has the grammar, and means `v`. */
  ghost predicate Grammatical(k: NumberCodec, t: seq<byte>, v: Value) {
    exists marked, g, doc, h :: Spells(k, t, marked, g, doc, h) && Meaning(k, doc) == v
  }

  lemma {:induction false} SpelledParses(k: NumberCodec, t: seq<byte>, marked: bool, g: Gap, doc: Doc, h: Gap)
    requires 0 !in t && Spells(k, t, marked, g, doc, h)
    ensures Parse(k, t, true) == Some(Meaning(k, doc))
  {
    DocReads(k, doc, 0);
    PiecesParse(k, if marked then BYTE_ORDER_MARK else [], g, Spell(doc), h, Meaning(k, doc), t);
  }

  lemma {:induction false} ParsedIsSpelled(k: NumberCodec, t: seq<byte>, v: Value)
    returns (marked: bool, g: Gap, doc: Doc, h: Gap)
    requires 0 !in t && Parse(k, t, true) == Some(v)
    ensures Spells(k, t, marked, g, doc, h) && Meaning(k, doc) == v
  {
    var x, c, i, e := ParseInverse(k, t, true, v);
    var s, end := Start(c), |c| - 1;
    ValueStart(x, k, c, i, 0, v, e);
    SkipStops(c, s);
    EndGap(c, e);
    ParsedValue(x, k, c, i, 0, v, e);
    g := GapFound(c, s, i);
    doc := ValueDoc(x, k, c, i, 0, v, e);
    h := GapFound(c, e, end);
    marked := s == 3;
    SliceThree(c, s, g, i, Spell(doc), e, h, end);
    WholeText(c, t, s, g + Spell(doc) + h);
  }

  lemma {:induction false} WholeText(c: seq<byte>, t: seq<byte>, s: nat, u: seq<byte>)
    requires c == t + [0] && s == Start(c) && Slice(c, s, u, |c| - 1)
    ensures t == (if s == 3 then BYTE_ORDER_MARK else []) + u
  {
    assert HasBody(c, s, u, Seal);
    assert t == c[..s] + c[s..s + |u|];
  }

  /**
   * The parser accepts exactly the texts of the grammar whose values are nested at most `NESTING_LIMIT` deep, and gives
   * what they mean.
   */
  lemma {:induction false} GrammarExact(k: NumberCodec, t: seq<byte>, v: Value)
    requires 0 !in t
    ensures Parse(k, t, true) == Some(v) <==> Grammatical(k, t, v)
  {
    if Parse(k, t, true) == Some(v) {
      var marked, g, doc, h := ParsedIsSpelled(k, t, v);
    }
    if Grammatical(k, t, v) {
      var marked, g, doc, h :| Spells(k, t, marked, g, doc, h) && Meaning(k, doc) == v;
      SpelledParses(k, t, marked, g, doc, h);
    }
  }

  /** A byte order mark in front of a text that has none changes nothing. */
  lemma {:induction false} MarkIgnored(k: NumberCodec, t: seq<byte>)
    requires 0 !in t && !(BYTE_ORDER_MARK <= t)
    ensures 0 !in BYTE_ORDER_MARK + t && Parse(k, BYTE_ORDER_MARK + t, true) == Parse(k, t, true)
  {
    var m := BYTE_ORDER_MARK + t;
    if Parse(k, t, true).Some? {
      var marked, g, doc, h := ParsedIsSpelled(k, t, Parse(k, t, true).value);
      assert !marked;
      assert [] + (g + Spell(doc) + h) == g + Spell(doc) + h;
      SpelledParses(k, m, true, g, doc, h);
    } else if Parse(k, m, true).Some? {
      var marked, g, doc, h := ParsedIsSpelled(k, m, Parse(k, m, true).value);
      UnmarkedStart(k, g, doc, h);
      assert marked;
      assert m[3..] == t && m[3..] == g + Spell(doc) + h;
      assert [] + (g + Spell(doc) + h) == g + Spell(doc) + h;
      SpelledParses(k, t, false, g, doc, h);
    }
  }

  /** Without a mark a text of the grammar starts with a control byte or an ASCII character. */
  lemma {:induction false} UnmarkedStart(k: NumberCodec, g: Gap, doc: Doc, h: Gap)
    requires Controls(g) && GoodDoc(k, doc) && Depth(Meaning(k, doc)) <= NESTING_LIMIT
    ensures ([] + (g + Spell(doc) + h))[0] < 128
  {
    DocReads(k, doc, 0);
    if g != [] {
      assert g[0] in g;
    }
  }
}
