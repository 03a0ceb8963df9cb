/**
 * The `$merge` aggregation stage of the LINQ3 abstract syntax tree: an immutable node
 * and its rendering to a BSON document.
 *
 * `ParseMerge` reads a rendered document back; `Render` and `ParseMerge` are shown
 * to be mutually inverse, which pins down everything `Render` emits: the single
 * `$merge` key, the shape of `into` and `on`, which optional fields appear and in
 * what order, and the names of the enum values.
 */
module Stages {
  import opened Wrappers
  import opened Errors

  /** The part of the BSON value model the stage renders to. */
  datatype BsonValue =
    | Str(s: string)
    | Doc(elements: seq<(string, BsonValue)>)
    | Arr(items: seq<BsonValue>)

  datatype WhenMatched = Replace | KeepExisting | Merge | Fail | Pipeline

  datatype WhenNotMatched = Insert | Discard | Fail

  /**
   * A `let` variable binding. How a binding renders itself as an element is not
   * part of this model: a binding carries the element name and value it renders as.
   */
  datatype VarBinding = VarBinding(name: string, rendered: BsonValue)

  datatype AstMergeStage = AstMergeStage(
    intoDatabase: Option<string>,
    intoCollection: string,
    on: Option<seq<string>>,
    letBindings: Option<seq<VarBinding>>,
    whenMatched: Option<WhenMatched>,
    whenNotMatched: Option<WhenNotMatched>)

  /** The constructor: every argument may be null except the target collection. */
  function NewMergeStage(
    intoDatabase: Option<string>,
    intoCollection: Option<string>,
    on: Option<seq<string>>,
    letBindings: Option<seq<VarBinding>>,
    whenMatched: Option<WhenMatched>,
    whenNotMatched: Option<WhenNotMatched>): (r: Result<AstMergeStage, Error>)
    ensures r.Failure? <==> intoCollection.None?
    ensures r.Failure? ==> r.error == ArgumentNull("intoCollection")
    ensures r.Success? ==>
      && r.value.intoDatabase == intoDatabase && r.value.intoCollection == intoCollection.value
      && r.value.on == on && r.value.letBindings == letBindings
      && r.value.whenMatched == whenMatched && r.value.whenNotMatched == whenNotMatched
  {
    if intoCollection.None? then Failure(ArgumentNull("intoCollection"))
    else Success(AstMergeStage(intoDatabase, intoCollection.value, on, letBindings, whenMatched, whenNotMatched))
  }

  /** A copy of `stage` with other `let` bindings; the same node when they are the current ones. */
  function Update(stage: AstMergeStage, letBindings: Option<seq<VarBinding>>): (r: AstMergeStage)
    ensures letBindings == stage.letBindings ==> r == stage
    ensures r.letBindings == letBindings
    ensures && r.intoDatabase == stage.intoDatabase && r.intoCollection == stage.intoCollection
            && r.on == stage.on && r.whenMatched == stage.whenMatched
            && r.whenNotMatched == stage.whenNotMatched
  {
    if letBindings == stage.letBindings then stage
    else AstMergeStage(stage.intoDatabase, stage.intoCollection, stage.on, letBindings,
                       stage.whenMatched, stage.whenNotMatched)
  }

  function WhenMatchedName(whenMatched: WhenMatched): (r: string)
    ensures r in ["fail", "keepExisting", "merge", "pipeline", "replace"]
  {
    match whenMatched
    case Fail => "fail"
    case KeepExisting => "keepExisting"
    case Merge => "merge"
    case Pipeline => "pipeline"
    case Replace => "replace"
  }

  function WhenNotMatchedName(whenNotMatched: WhenNotMatched): (r: string)
    ensures r in ["discard", "fail", "insert"]
  {
    match whenNotMatched
    case Discard => "discard"
    case Fail => "fail"
    case Insert => "insert"
  }

  /** The target: the bare collection name, or a `{db, coll}` document when a database is given. */
  function RenderInto(intoDatabase: Option<string>, intoCollection: string): (r: BsonValue)
    ensures r.Str? <==> intoDatabase.None?
    ensures ParseInto(r) == Some((intoDatabase, intoCollection))
  {
    if intoDatabase.None? then Str(intoCollection)
    else Doc([("db", Str(intoDatabase.value)), ("coll", Str(intoCollection))])
  }

  /** The `on` fields: a single field as a string, any other number of them as an array. */
  function RenderOn(on: seq<string>): (r: BsonValue)
    ensures r.Str? <==> |on| == 1
    ensures r.Str? || r.Arr?
    ensures r.Arr? ==> |r.items| == |on| && forall i :: 0 <= i < |on| ==> r.items[i] == Str(on[i])
  {
    if |on| == 1 then Str(on[0])
    else Arr(seq(|on|, i requires 0 <= i < |on| => Str(on[i])))
  }

  /** The `let` document: one element per binding, named after it, in binding order. */
  function RenderLet(letBindings: seq<VarBinding>): (r: BsonValue)
    ensures r.Doc? && |r.elements| == |letBindings|
    ensures forall i :: 0 <= i < |letBindings| ==> r.elements[i].0 == letBindings[i].name
  {
    Doc(seq(|letBindings|, i requires 0 <= i < |letBindings| => (letBindings[i].name, letBindings[i].rendered)))
  }

  /** An element that is emitted only when its field is set. */
  function OptionalElement<X>(name: string, field: Option<X>, render: X -> BsonValue): (r: seq<(string, BsonValue)>)
    ensures |r| == (if field.Some? then 1 else 0)
    ensures forall i :: 0 <= i < |r| ==> r[i].0 == name
  {
    if field.Some? then [(name, render(field.value))] else []
  }

  /** The elements of the `$merge` document. */
  function MergeElements(stage: AstMergeStage): (r: seq<(string, BsonValue)>)
    ensures 1 <= |r| <= 5 && r[0].0 == "into"
    ensures ParseInto(r[0].1) == Some((stage.intoDatabase, stage.intoCollection))
  {
    [("into", RenderInto(stage.intoDatabase, stage.intoCollection))] + OptionalElements(OptionalsOf(stage))
  }

  /** The optional fields of a stage, in rendering order. */
  function OptionalsOf(stage: AstMergeStage): Optionals
  {
    Optionals(stage.on, stage.letBindings, stage.whenMatched, stage.whenNotMatched)
  }

  /** The stage as a BSON document: `{ $merge: { ... } }`. */
  function Render(stage: AstMergeStage): (r: BsonValue)
    ensures r.Doc? && |r.elements| == 1 && r.elements[0].0 == "$merge"
  {
    Doc([("$merge", Doc(MergeElements(stage)))])
  }

  // Reading a rendered stage back.

  function ParseWhenMatched(v: BsonValue): Option<WhenMatched>
  {
    if v == Str("fail") then Some(WhenMatched.Fail)
    else if v == Str("keepExisting") then Some(KeepExisting)
    else if v == Str("merge") then Some(Merge)
    else if v == Str("pipeline") then Some(Pipeline)
    else if v == Str("replace") then Some(Replace)
    else None
  }

  function ParseWhenNotMatched(v: BsonValue): Option<WhenNotMatched>
  {
    if v == Str("discard") then Some(Discard)
    else if v == Str("fail") then Some(WhenNotMatched.Fail)
    else if v == Str("insert") then Some(Insert)
    else None
  }

  /** The target database (if any) and collection. */
  function ParseInto(v: BsonValue): Option<(Option<string>, string)>
  {
    match v
    case Str(coll) => Some((None, coll))
    case Doc(es) =>
      if |es| == 2 && es[0].0 == "db" && es[0].1.Str? && es[1].0 == "coll" && es[1].1.Str?
      then Some((Some(es[0].1.s), es[1].1.s))
      else None
    case Arr(_) => None
  }

  /** The `on` fields; a one-element array is not a rendering of anything. */
  function ParseOn(v: BsonValue): Option<seq<string>>
  {
    match v
    case Str(field) => Some([field])
    case Arr(items) =>
      if |items| != 1 && forall i :: 0 <= i < |items| ==> items[i].Str?
      then Some(seq(|items|, i requires 0 <= i < |items| => items[i].s))
      else None
    case Doc(_) => None
  }

  function ParseLet(v: BsonValue): Option<seq<VarBinding>>
  {
    match v
    case Doc(es) => Some(seq(|es|, i requires 0 <= i < |es| => VarBinding(es[i].0, es[i].1)))
    case _ => None
  }

  /**
   * Reads an optional element named `name` at the front of `es`: `None` when it is
   * present but unreadable, otherwise the field and the elements after it.
   */
  function ParseOptional<X>(es: seq<(string, BsonValue)>, name: string, parse: BsonValue -> Option<X>)
    : (r: Option<(Option<X>, seq<(string, BsonValue)>)>)
    ensures r.Some? ==> |r.value.1| <= |es|
  {
    if |es| > 0 && es[0].0 == name then
      match parse(es[0].1)
      case None => None
      case Some(x) => Some((Some(x), es[1..]))
    else Some((None, es))
  }

  /** The optional elements in rendering order, all of them read, and nothing after them. */
  datatype Optionals = Optionals(
    on: Option<seq<string>>,
    letBindings: Option<seq<VarBinding>>,
    whenMatched: Option<WhenMatched>,
    whenNotMatched: Option<WhenNotMatched>)

  function OptionalElements(o: Optionals): seq<(string, BsonValue)>
  {
    OptionalElement("on", o.on, RenderOn)
    + (OptionalElement("let", o.letBindings, RenderLet)
       + (OptionalElement("whenMatched", o.whenMatched, (w: WhenMatched) => Str(WhenMatchedName(w)))
          + OptionalElement("whenNotMatched", o.whenNotMatched, (w: WhenNotMatched) => Str(WhenNotMatchedName(w)))))
  }

  function ParseWhenNotMatchedTail(es: seq<(string, BsonValue)>): Option<Option<WhenNotMatched>>
  {
    var p := ParseOptional(es, "whenNotMatched", ParseWhenNotMatched);
    if p.None? || p.value.1 != [] then None else Some(p.value.0)
  }

  function ParseWhenMatchedTail(es: seq<(string, BsonValue)>): Option<(Option<WhenMatched>, Option<WhenNotMatched>)>
  {
    var p := ParseOptional(es, "whenMatched", ParseWhenMatched);
    if p.None? then None
    else
      var tail := ParseWhenNotMatchedTail(p.value.1);
      if tail.None? then None else Some((p.value.0, tail.value))
  }

  function ParseLetTail(es: seq<(string, BsonValue)>)
    : Option<(Option<seq<VarBinding>>, Option<WhenMatched>, Option<WhenNotMatched>)>
  {
    var p := ParseOptional(es, "let", ParseLet);
    if p.None? then None
    else
      var tail := ParseWhenMatchedTail(p.value.1);
      if tail.None? then None else Some((p.value.0, tail.value.0, tail.value.1))
  }

  function ParseOptionals(es: seq<(string, BsonValue)>): Option<Optionals>
  {
    var p := ParseOptional(es, "on", ParseOn);
    if p.None? then None
    else
      var tail := ParseLetTail(p.value.1);
      if tail.None? then None else Some(Optionals(p.value.0, tail.value.0, tail.value.1, tail.value.2))
  }

  /** Reads the elements of a `$merge` document, which must come in rendering order. */
  function ParseMergeElements(es: seq<(string, BsonValue)>): Option<AstMergeStage>
  {
    if |es| == 0 || es[0].0 != "into" then None
    else
      var into := ParseInto(es[0].1);
      var optionals := ParseOptionals(es[1..]);
      if into.None? || optionals.None? then None
      else
        var o := optionals.value;
        Some(AstMergeStage(into.value.0, into.value.1, o.on, o.letBindings, o.whenMatched, o.whenNotMatched))
  }

  /** Reads a rendered stage back: `{ $merge: { ... } }`. */
  function ParseMerge(v: BsonValue): Option<AstMergeStage>
  {
    match v
    case Doc(es) =>
      if |es| == 1 && es[0].0 == "$merge" && es[0].1.Doc? then ParseMergeElements(es[0].1.elements)
      else None
    case _ => None
  }

  // The two directions of the round trip, part by part.

  lemma WhenMatchedNamesInjective(a: WhenMatched, b: WhenMatched)
    ensures ParseWhenMatched(Str(WhenMatchedName(a))) == Some(a)
    ensures WhenMatchedName(a) == WhenMatchedName(b) ==> a == b
  {
  }

  lemma WhenNotMatchedNamesInjective(a: WhenNotMatched, b: WhenNotMatched)
    ensures ParseWhenNotMatched(Str(WhenNotMatchedName(a))) == Some(a)
    ensures WhenNotMatchedName(a) == WhenNotMatchedName(b) ==> a == b
  {
  }

  /** `into` is the bare collection without a database, and `{db, coll}` in that order with one. */
  lemma IntoRoundTrip(intoDatabase: Option<string>, intoCollection: string, v: BsonValue)
    ensures ParseInto(RenderInto(intoDatabase, intoCollection)) == Some((intoDatabase, intoCollection))
    ensures ParseInto(v) == Some((intoDatabase, intoCollection)) ==> RenderInto(intoDatabase, intoCollection) == v
  {
  }

  /** Any number of `on` fields other than one is rendered as an array of the same fields. */
  lemma {:induction false} OnRoundTrip(on: seq<string>)
    ensures ParseOn(RenderOn(on)) == Some(on)
  {
    if |on| != 1 {
      var items := seq(|on|, i requires 0 <= i < |on| => Str(on[i]));
      assert RenderOn(on) == Arr(items);
      assert forall i :: 0 <= i < |items| ==> items[i].Str? && items[i].s == on[i];
      var back := ParseOn(Arr(items)).value;
      assert |back| == |on| && forall i :: 0 <= i < |on| ==> back[i] == on[i];
      assert back == on;
    } else {
      assert on == [on[0]];
    }
  }

  lemma {:induction false} LetRoundTrip(letBindings: seq<VarBinding>)
    ensures ParseLet(RenderLet(letBindings)) == Some(letBindings)
  {
    var es := RenderLet(letBindings).elements;
    var back := seq(|es|, i requires 0 <= i < |es| => VarBinding(es[i].0, es[i].1));
    assert back == letBindings;
  }

  /** Reading an optional element that was emitted (or left out) yields its field and the rest. */
  lemma SkipOptional<X>(
    front: seq<(string, BsonValue)>, rest: seq<(string, BsonValue)>,
    name: string, field: Option<X>, parse: BsonValue -> Option<X>)
    requires field.Some? ==> |front| == 1 && front[0].0 == name && parse(front[0].1) == field
    requires field.None? ==> front == [] && (rest == [] || rest[0].0 != name)
    ensures ParseOptional(front + rest, name, parse) == Some((field, rest))
  {
    if field.Some? {
      assert (front + rest)[1..] == rest;
    } else {
      assert front + rest == rest;
    }
  }

  /** The optional elements are read back, each after the one before it. */
  lemma {:induction false} OptionalsRoundTrip(o: Optionals)
    ensures ParseOptionals(OptionalElements(o)) == Some(o)
  {
    var onE := OptionalElement("on", o.on, RenderOn);
    var letE := OptionalElement("let", o.letBindings, RenderLet);
    var wmE := OptionalElement("whenMatched", o.whenMatched, (w: WhenMatched) => Str(WhenMatchedName(w)));
    var wnmE := OptionalElement("whenNotMatched", o.whenNotMatched, (w: WhenNotMatched) => Str(WhenNotMatchedName(w)));
    if o.on.Some? { OnRoundTrip(o.on.value); }
    if o.letBindings.Some? { LetRoundTrip(o.letBindings.value); }
    if o.whenMatched.Some? { WhenMatchedNamesInjective(o.whenMatched.value, o.whenMatched.value); }
    if o.whenNotMatched.Some? { WhenNotMatchedNamesInjective(o.whenNotMatched.value, o.whenNotMatched.value); }
    SkipOptional(wnmE, [], "whenNotMatched", o.whenNotMatched, ParseWhenNotMatched);
    assert wnmE + [] == wnmE;
    assert ParseWhenNotMatchedTail(wnmE) == Some(o.whenNotMatched);
    SkipOptional(wmE, wnmE, "whenMatched", o.whenMatched, ParseWhenMatched);
    assert ParseWhenMatchedTail(wmE + wnmE) == Some((o.whenMatched, o.whenNotMatched));
    SkipOptional(letE, wmE + wnmE, "let", o.letBindings, ParseLet);
    assert ParseLetTail(letE + (wmE + wnmE)) == Some((o.letBindings, o.whenMatched, o.whenNotMatched));
    SkipOptional(onE, letE + (wmE + wnmE), "on", o.on, ParseOn);
  }

  /** Every stage is read back from its rendering. */
  lemma {:induction false} ParseRender(stage: AstMergeStage)
    ensures ParseMerge(Render(stage)) == Some(stage)
  {
    var o := Optionals(stage.on, stage.letBindings, stage.whenMatched, stage.whenNotMatched);
    var es := MergeElements(stage);
    assert o == OptionalsOf(stage);
    assert es[1..] == OptionalElements(o);
    OptionalsRoundTrip(o);
  }

  lemma {:induction false} OnParsedRenders(v: BsonValue, on: seq<string>)
    requires ParseOn(v) == Some(on)
    ensures RenderOn(on) == v
  {
    if v.Arr? {
      var items := v.items;
      assert |on| == |items|;
      assert seq(|on|, i requires 0 <= i < |on| => Str(on[i])) == items;
    }
  }

  lemma {:induction false} LetParsedRenders(v: BsonValue, letBindings: seq<VarBinding>)
    requires ParseLet(v) == Some(letBindings)
    ensures RenderLet(letBindings) == v
  {
    var es := v.elements;
    assert seq(|letBindings|, i requires 0 <= i < |letBindings| => (letBindings[i].name, letBindings[i].rendered)) == es;
  }

  /** What `ParseOptional` succeeds on is the element it read, if any, followed by the rest. */
  lemma OptionalParsed<X>(
    es: seq<(string, BsonValue)>, name: string, parse: BsonValue -> Option<X>,
    field: Option<X>, rest: seq<(string, BsonValue)>)
    requires ParseOptional(es, name, parse) == Some((field, rest))
    ensures field.Some? ==> |es| > 0 && es[0].0 == name && parse(es[0].1) == field && es == [es[0]] + rest
    ensures field.None? ==> es == rest
  {
    if field.Some? {
      assert es == [es[0]] + es[1..];
    }
  }

  lemma {:induction false} WhenNotMatchedTailParsed(es: seq<(string, BsonValue)>, whenNotMatched: Option<WhenNotMatched>)
    requires ParseWhenNotMatchedTail(es) == Some(whenNotMatched)
    ensures OptionalElement("whenNotMatched", whenNotMatched, (w: WhenNotMatched) => Str(WhenNotMatchedName(w))) == es
  {
    var p := ParseOptional(es, "whenNotMatched", ParseWhenNotMatched).value;
    OptionalParsed(es, "whenNotMatched", ParseWhenNotMatched, p.0, p.1);
  }

  lemma {:induction false} WhenMatchedTailParsed(
    es: seq<(string, BsonValue)>, whenMatched: Option<WhenMatched>, whenNotMatched: Option<WhenNotMatched>)
    requires ParseWhenMatchedTail(es) == Some((whenMatched, whenNotMatched))
    ensures OptionalElement("whenMatched", whenMatched, (w: WhenMatched) => Str(WhenMatchedName(w)))
          + OptionalElement("whenNotMatched", whenNotMatched, (w: WhenNotMatched) => Str(WhenNotMatchedName(w))) == es
  {
    var p := ParseOptional(es, "whenMatched", ParseWhenMatched).value;
    OptionalParsed(es, "whenMatched", ParseWhenMatched, p.0, p.1);
    WhenNotMatchedTailParsed(p.1, whenNotMatched);
  }

  lemma {:induction false} LetTailParsed(
    es: seq<(string, BsonValue)>, letBindings: Option<seq<VarBinding>>,
    whenMatched: Option<WhenMatched>, whenNotMatched: Option<WhenNotMatched>)
    requires ParseLetTail(es) == Some((letBindings, whenMatched, whenNotMatched))
    ensures OptionalElement("let", letBindings, RenderLet)
          + (OptionalElement("whenMatched", whenMatched, (w: WhenMatched) => Str(WhenMatchedName(w)))
             + OptionalElement("whenNotMatched", whenNotMatched, (w: WhenNotMatched) => Str(WhenNotMatchedName(w)))) == es
  {
    var p := ParseOptional(es, "let", ParseLet).value;
    OptionalParsed(es, "let", ParseLet, p.0, p.1);
    WhenMatchedTailParsed(p.1, whenMatched, whenNotMatched);
    if letBindings.Some? {
      LetParsedRenders(es[0].1, letBindings.value);
    }
  }

  /** Whatever `ParseOptionals` accepts is the rendering of the optional elements it returns. */
  lemma {:induction false} OptionalsParsedRender(es: seq<(string, BsonValue)>, o: Optionals)
    requires ParseOptionals(es) == Some(o)
    ensures OptionalElements(o) == es
  {
    var p := ParseOptional(es, "on", ParseOn).value;
    OptionalParsed(es, "on", ParseOn, p.0, p.1);
    LetTailParsed(p.1, o.letBindings, o.whenMatched, o.whenNotMatched);
    if o.on.Some? {
      OnParsedRenders(es[0].1, o.on.value);
    }
  }

  /** Only renderings are read back: whatever `ParseMerge` accepts is the rendering of what it returns. */
  lemma {:induction false} RenderParse(v: BsonValue, stage: AstMergeStage)
    requires ParseMerge(v) == Some(stage)
    ensures Render(stage) == v
  {
    var es := v.elements[0].1.elements;
    var o := ParseOptionals(es[1..]).value;
    OptionalsParsedRender(es[1..], o);
    assert RenderInto(stage.intoDatabase, stage.intoCollection) == es[0].1;
    assert es == [es[0]] + es[1..];
    assert o == OptionalsOf(stage);
  }

  /** The names of a document's elements, in order. */
  function Keys(es: seq<(string, BsonValue)>): (r: seq<string>)
    ensures |r| == |es| && forall i :: 0 <= i < |es| ==> r[i] == es[i].0
  {
    seq(|es|, i requires 0 <= i < |es| => es[i].0)
  }

  /** The position of a key in the rendering order `into`, `on`, `let`, `whenMatched`, `whenNotMatched`. */
  function KeyRank(key: string): nat
  {
    if key == "into" then 0
    else if key == "on" then 1
    else if key == "let" then 2
    else if key == "whenMatched" then 3
    else if key == "whenNotMatched" then 4
    else 5
  }

  /** The key of an optional element, when it is present. */
  function OptionalKey(name: string, present: bool): seq<string>
  {
    if present then [name] else []
  }

  /** The keys that go with the fields that are set, in rendering order. */
  function PresentKeys(stage: AstMergeStage): seq<string>
  {
    ["into"]
    + (OptionalKey("on", stage.on.Some?)
       + (OptionalKey("let", stage.letBindings.Some?)
          + (OptionalKey("whenMatched", stage.whenMatched.Some?)
             + OptionalKey("whenNotMatched", stage.whenNotMatched.Some?))))
  }

  lemma KeysAppend(a: seq<(string, BsonValue)>, b: seq<(string, BsonValue)>)
    ensures Keys(a + b) == Keys(a) + Keys(b)
  {
    assert forall i :: 0 <= i < |a + b| ==> Keys(a + b)[i] == (Keys(a) + Keys(b))[i];
  }

  lemma KeysOfOptional<X>(name: string, field: Option<X>, render: X -> BsonValue)
    ensures Keys(OptionalElement(name, field, render)) == OptionalKey(name, field.Some?)
  {
  }

  lemma KeysOfMergeElements(stage: AstMergeStage)
    ensures Keys(MergeElements(stage)) == PresentKeys(stage)
  {
    var o := OptionalsOf(stage);
    var onE := OptionalElement("on", o.on, RenderOn);
    var letE := OptionalElement("let", o.letBindings, RenderLet);
    var wmE := OptionalElement("whenMatched", o.whenMatched, (w: WhenMatched) => Str(WhenMatchedName(w)));
    var wnmE := OptionalElement("whenNotMatched", o.whenNotMatched, (w: WhenNotMatched) => Str(WhenNotMatchedName(w)));
    KeysOfOptional("on", o.on, RenderOn);
    KeysOfOptional("let", o.letBindings, RenderLet);
    KeysOfOptional("whenMatched", o.whenMatched, (w: WhenMatched) => Str(WhenMatchedName(w)));
    KeysOfOptional("whenNotMatched", o.whenNotMatched, (w: WhenNotMatched) => Str(WhenNotMatchedName(w)));
    KeysAppend(wmE, wnmE);
    KeysAppend(letE, wmE + wnmE);
    KeysAppend(onE, letE + (wmE + wnmE));
    KeysAppend([("into", RenderInto(stage.intoDatabase, stage.intoCollection))], OptionalElements(o));
  }

  /** Keys listed in strictly increasing rendering order. */
  ghost predicate InRenderingOrder(keys: seq<string>)
  {
    forall i, j :: 0 <= i < j < |keys| ==> KeyRank(keys[i]) < KeyRank(keys[j])
  }

  lemma KeyRanks()
    ensures KeyRank("into") == 0 && KeyRank("on") == 1 && KeyRank("let") == 2
    ensures KeyRank("whenMatched") == 3 && KeyRank("whenNotMatched") == 4
  {
    assert "on"[0] != "into"[0];
    assert "let"[0] != "into"[0] && "let"[0] != "on"[0];
    assert "whenMatched"[0] != "into"[0] && "whenMatched"[0] != "on"[0] && "whenMatched"[0] != "let"[0];
    assert "whenNotMatched"[0] != "into"[0] && "whenNotMatched"[0] != "on"[0] && "whenNotMatched"[0] != "let"[0];
    assert "whenNotMatched"[4] != "whenMatched"[4];
  }

  /** Putting a key of lower rank in front of keys in rendering order keeps them in rendering order. */
  lemma {:induction false} PrependInOrder(name: string, present: bool, keys: seq<string>)
    requires InRenderingOrder(keys)
    requires forall j :: 0 <= j < |keys| ==> KeyRank(name) < KeyRank(keys[j])
    ensures InRenderingOrder(OptionalKey(name, present) + keys)
    ensures forall j :: 0 <= j < |OptionalKey(name, present) + keys| ==>
      KeyRank(name) <= KeyRank((OptionalKey(name, present) + keys)[j])
  {
    var r := OptionalKey(name, present) + keys;
    if present {
      forall i, j | 0 <= i < j < |r| ensures KeyRank(r[i]) < KeyRank(r[j]) {
        if i > 0 { assert r[i] == keys[i - 1]; }
        assert r[j] == keys[j - 1];
      }
    } else {
      assert r == keys;
    }
  }

  /** The keys after `on` are in rendering order and all rank after `on`. */
  lemma {:induction false} LaterKeysInOrder(hasLet: bool, hasWhenMatched: bool, hasWhenNotMatched: bool)
    ensures var keys := OptionalKey("let", hasLet)
                        + (OptionalKey("whenMatched", hasWhenMatched) + OptionalKey("whenNotMatched", hasWhenNotMatched));
      && InRenderingOrder(keys)
      && forall j :: 0 <= j < |keys| ==> KeyRank(keys[j]) >= 2
  {
    KeyRanks();
    var wnm := OptionalKey("whenNotMatched", hasWhenNotMatched);
    PrependInOrder("whenNotMatched", hasWhenNotMatched, []);
    assert wnm + [] == wnm;
    var wm := OptionalKey("whenMatched", hasWhenMatched) + wnm;
    PrependInOrder("whenMatched", hasWhenMatched, wnm);
    PrependInOrder("let", hasLet, wm);
  }

  lemma {:induction false} PresentKeysInOrder(stage: AstMergeStage)
    ensures InRenderingOrder(PresentKeys(stage))
  {
    KeyRanks();
    var later := OptionalKey("let", stage.letBindings.Some?)
                 + (OptionalKey("whenMatched", stage.whenMatched.Some?)
                    + OptionalKey("whenNotMatched", stage.whenNotMatched.Some?));
    LaterKeysInOrder(stage.letBindings.Some?, stage.whenMatched.Some?, stage.whenNotMatched.Some?);
    var on := OptionalKey("on", stage.on.Some?) + later;
    PrependInOrder("on", stage.on.Some?, later);
    PrependInOrder("into", true, on);
    assert PresentKeys(stage) == OptionalKey("into", true) + on;
  }

  /**
   * The `$merge` document starts with `into`, holds each optional key exactly when its
   * field is set, and lists its keys in rendering order, each at most once.
   */
  lemma RenderKeyOrder(stage: AstMergeStage)
    ensures var keys := Keys(MergeElements(stage));
      && |keys| > 0 && keys[0] == "into"
      && ("on" in keys <==> stage.on.Some?)
      && ("let" in keys <==> stage.letBindings.Some?)
      && ("whenMatched" in keys <==> stage.whenMatched.Some?)
      && ("whenNotMatched" in keys <==> stage.whenNotMatched.Some?)
      && InRenderingOrder(keys)
  {
    KeysOfMergeElements(stage);
    PresentKeysInOrder(stage);
  }

  /** A document is the rendering of a stage exactly when it reads back as that stage. */
  lemma RenderIsInjective(v: BsonValue, stage: AstMergeStage)
    ensures Render(stage) == v <==> ParseMerge(v) == Some(stage)
  {
    ParseRender(stage);
    if ParseMerge(v) == Some(stage) {
      RenderParse(v, stage);
    }
  }
}
