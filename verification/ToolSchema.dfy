/**
 * Tool input schemas: which schemas are supported, and when an input conforms to one.
 *
 * Schemas are JSON values. A number is known by its token; the `numeral` argument says what
 * number a token stands for.
 */
module ToolSchema {
  import opened Prelude
  import opened CanonicalJson
  import opened PlainJson

  type Numeral = Text -> real

  datatype Keyword =
    | Type | Title | Description | Default | Properties | Required | AdditionalProperties | Items
    | MinItems | MaxItems | MinLength | MaxLength | Minimum | Maximum | ExclusiveMinimum | ExclusiveMaximum
    | MinProperties | MaxProperties | Enum | Const | AnyOf | OneOf | AllOf

  datatype TypeName = ObjectType | ArrayType | StringType | NumberType | IntegerType | BooleanType | NullType

  const MAX_SCHEMA_DEPTH := 12
  const MAX_SAFE_INTEGER := 0x1F_FFFF_FFFF_FFFF

  function Word(k: Keyword): string {
    match k
    case Type => "type"
    case Title => "title"
    case Description => "description"
    case Default => "default"
    case Properties => "properties"
    case Required => "required"
    case AdditionalProperties => "additionalProperties"
    case Items => "items"
    case MinItems => "minItems"
    case MaxItems => "maxItems"
    case MinLength => "minLength"
    case MaxLength => "maxLength"
    case Minimum => "minimum"
    case Maximum => "maximum"
    case ExclusiveMinimum => "exclusiveMinimum"
    case ExclusiveMaximum => "exclusiveMaximum"
    case MinProperties => "minProperties"
    case MaxProperties => "maxProperties"
    case Enum => "enum"
    case Const => "const"
    case AnyOf => "anyOf"
    case OneOf => "oneOf"
    case AllOf => "allOf"
  }

  function Name(k: Keyword): Text {
    Ascii(Word(k))
  }

  predicate IsKeyword(key: Text) {
    exists k: Keyword :: Name(k) == key
  }

  function TypeNamed(name: Text): Option<TypeName> {
    if name == Ascii("object") then Some(ObjectType)
    else if name == Ascii("array") then Some(ArrayType)
    else if name == Ascii("string") then Some(StringType)
    else if name == Ascii("number") then Some(NumberType)
    else if name == Ascii("integer") then Some(IntegerType)
    else if name == Ascii("boolean") then Some(BooleanType)
    else if name == Ascii("null") then Some(NullType)
    else None
  }

  // ---------- Reading a schema ----------

  function Get(members: seq<Member>, key: Text): (r: Option<Json>)
    ensures r.Some? ==> exists i :: 0 <= i < |members| && members[i] == Member(key, r.value)
    ensures r.None? ==> forall i :: 0 <= i < |members| ==> members[i].key != key
  {
    if members == [] then None
    else if members[0].key == key then Some(members[0].value)
    else
      assert forall i :: 0 < i < |members| ==> members[i] == members[1..][i - 1];
      Get(members[1..], key)
  }

  function GetIn(owner: Json, key: Text): (r: Option<Json>)
    ensures r.Some? ==> r.value < owner && (HasTokens(owner) ==> HasTokens(r.value))
  {
    if owner.Object? then Get(owner.members, key) else None
  }

  function At(schema: Json, k: Keyword): (r: Option<Json>)
    ensures r.Some? ==> r.value < schema && (HasTokens(schema) ==> HasTokens(r.value))
  {
    GetIn(schema, Name(k))
  }

  /** The elements of a keyword's array; none when it is absent or no array. */
  function ListAt(schema: Json, k: Keyword): (items: seq<Json>)
    ensures forall i :: 0 <= i < |items| ==> items[i] < schema && (HasTokens(schema) ==> HasTokens(items[i]))
  {
    match At(schema, k)
    case Some(Array(items)) => items
    case _ => []
  }

  predicate IsListAt(schema: Json, k: Keyword) {
    At(schema, k).Some? && At(schema, k).value.Array?
  }

  function TypeOf(schema: Json): Option<TypeName> {
    match At(schema, Type)
    case Some(String(name)) => TypeNamed(name)
    case _ => None
  }

  function SafeInteger(numeral: Numeral, v: Json): Option<int> {
    if v.Number? && numeral(v.token) == numeral(v.token).Floor as real
       && -MAX_SAFE_INTEGER <= numeral(v.token).Floor <= MAX_SAFE_INTEGER
    then Some(numeral(v.token).Floor) else None
  }

  function Count(numeral: Numeral, schema: Json, k: Keyword): Option<nat> {
    match At(schema, k)
    case None => None
    case Some(v) =>
      var n := SafeInteger(numeral, v);
      if n.Some? && n.value >= 0 then Some(n.value) else None
  }

  function Bound(numeral: Numeral, schema: Json, k: Keyword): Option<real> {
    match At(schema, k)
    case Some(Number(token)) => Some(numeral(token))
    case _ => None
  }

  // ---------- Supported schemas ----------

  predicate Distinct(items: seq<Json>) {
    forall i, j :: 0 <= i < j < |items| ==> items[i] != items[j]
  }

  predicate IsRequiredList(v: Json) {
    && v.Array? && |v.items| <= 128 && Distinct(v.items)
    && forall i :: 0 <= i < |v.items| ==> v.items[i].String? && 0 < |v.items[i].chars| <= 256
  }

  predicate HasSupportedKeys(schema: Json) {
    schema.Object? && forall i :: 0 <= i < |schema.members| ==> IsKeyword(schema.members[i].key)
  }

  predicate HasSupportedLimits(numeral: Numeral, schema: Json) {
    && (forall k | k in {MinItems, MaxItems, MinLength, MaxLength, MinProperties, MaxProperties} ::
          At(schema, k).Some? ==> Count(numeral, schema, k).Some?)
    && (forall k | k in {Minimum, Maximum, ExclusiveMinimum, ExclusiveMaximum} ::
          At(schema, k).Some? ==> Bound(numeral, schema, k).Some?)
    && (At(schema, Required).Some? ==> IsRequiredList(At(schema, Required).value))
    && (At(schema, AdditionalProperties).Some? ==> At(schema, AdditionalProperties).value.Boolean?)
    && (At(schema, Enum).Some? ==> IsListAt(schema, Enum) && 0 < |ListAt(schema, Enum)| <= 128)
    && (At(schema, Title).Some? ==> At(schema, Title).value.String?)
    && (At(schema, Description).Some? ==> At(schema, Description).value.String?)
  }

  /** What is asked of one schema node, the nodes below it aside. */
  predicate IsNode(numeral: Numeral, schema: Json) {
    && HasSupportedKeys(schema) && TypeOf(schema).Some? && HasSupportedLimits(numeral, schema)
    && (At(schema, Properties).Some? ==>
          At(schema, Properties).value.Object? && |At(schema, Properties).value.members| <= 128)
    && (forall k :: k in {AnyOf, OneOf, AllOf} && At(schema, k).Some?
          ==> IsListAt(schema, k) && 0 < |ListAt(schema, k)| <= 16)
  }

  predicate ValidateSchemaNode(numeral: Numeral, schema: Json, depth: nat, top: bool)
    decreases schema
  {
    && depth <= MAX_SCHEMA_DEPTH && IsNode(numeral, schema)
    && (top ==> TypeOf(schema) == Some(ObjectType))
    && (At(schema, Properties).Some? ==>
          var properties := At(schema, Properties).value.members;
          forall i :: 0 <= i < |properties| ==> ValidateSchemaNode(numeral, properties[i].value, depth + 1, false))
    && (At(schema, Items).Some? ==> ValidateSchemaNode(numeral, At(schema, Items).value, depth + 1, false))
    && (forall i | 0 <= i < |ListAt(schema, AnyOf)| ::
          ValidateSchemaNode(numeral, ListAt(schema, AnyOf)[i], depth + 1, false))
    && (forall i | 0 <= i < |ListAt(schema, OneOf)| ::
          ValidateSchemaNode(numeral, ListAt(schema, OneOf)[i], depth + 1, false))
    && (forall i | 0 <= i < |ListAt(schema, AllOf)| ::
          ValidateSchemaNode(numeral, ListAt(schema, AllOf)[i], depth + 1, false))
  }

  /** A schema node accepted at some depth. */
  ghost predicate IsSchema(numeral: Numeral, schema: Json) {
    exists depth: nat :: ValidateSchemaNode(numeral, schema, depth, false)
  }

  lemma TopIsSchema(numeral: Numeral, schema: Json, depth: nat, top: bool)
    requires ValidateSchemaNode(numeral, schema, depth, top)
    ensures IsSchema(numeral, schema)
  {
    assert ValidateSchemaNode(numeral, schema, depth, false);
  }

  /** The nodes directly below a schema node. */
  ghost predicate IsBelow(child: Json, schema: Json) {
    || (At(schema, Properties).Some? && At(schema, Properties).value.Object?
        && exists i | 0 <= i < |At(schema, Properties).value.members| ::
             At(schema, Properties).value.members[i].value == child)
    || At(schema, Items) == Some(child)
    || child in ListAt(schema, AnyOf) || child in ListAt(schema, OneOf) || child in ListAt(schema, AllOf)
  }

  lemma BelowIsAccepted(numeral: Numeral, schema: Json, depth: nat, child: Json)
    requires ValidateSchemaNode(numeral, schema, depth, false) && IsBelow(child, schema)
    ensures ValidateSchemaNode(numeral, child, depth + 1, false)
  {
  }

  lemma SchemaHasType(numeral: Numeral, schema: Json)
    requires IsSchema(numeral, schema)
    ensures TypeOf(schema).Some?
  {
    hide At, ListAt, IsListAt, TypeOf, HasSupportedKeys, HasSupportedLimits;
  }

  lemma BelowIsSchema(numeral: Numeral, schema: Json, child: Json)
    requires IsSchema(numeral, schema) && IsBelow(child, schema)
    ensures IsSchema(numeral, child)
  {
    var depth: nat :| ValidateSchemaNode(numeral, schema, depth, false);
    BelowIsAccepted(numeral, schema, depth, child);
  }

  /** Every node met on the way down from an accepted schema is well-formed, and the way is short. */
  lemma {:induction false} AcceptedAllTheWayDown(numeral: Numeral, chain: seq<Json>, depth: nat)
    requires chain != [] && ValidateSchemaNode(numeral, chain[0], depth, false)
    requires forall i :: 0 < i < |chain| ==> IsBelow(chain[i], chain[i - 1])
    ensures depth + |chain| <= MAX_SCHEMA_DEPTH + 1 && IsNode(numeral, chain[|chain| - 1])
    decreases |chain|
  {
    hide IsBelow, IsNode, At, ListAt, TypeOf;
    if |chain| > 1 {
      assert IsBelow(chain[1], chain[0]);
      BelowIsAccepted(numeral, chain[0], depth, chain[1]);
      var rest := chain[1..];
      assert forall i :: 0 <= i < |rest| ==> rest[i] == chain[i + 1];
      AcceptedAllTheWayDown(numeral, rest, depth + 1);
    }
  }

  /** A way down from a node, each step to a node directly below. */
  ghost predicate IsWayDown(schema: Json, chain: seq<Json>) {
    chain != [] && chain[0] == schema && forall i :: 0 < i < |chain| ==> IsBelow(chain[i], chain[i - 1])
  }

  /** Every way down from the schema is short enough and ends in a well-formed node. */
  ghost predicate IsSoundAllTheWayDown(numeral: Numeral, schema: Json, depth: nat) {
    forall chain :: IsWayDown(schema, chain)
                    ==> depth + |chain| <= MAX_SCHEMA_DEPTH + 1 && IsNode(numeral, chain[|chain| - 1])
  }

  /**
   * The recursive check accepts a schema exactly when every node below it, by any way, is
   * well-formed and near enough.
   */
  lemma {:induction false} AcceptedMeansEveryNode(numeral: Numeral, schema: Json, depth: nat)
    ensures ValidateSchemaNode(numeral, schema, depth, false) <==> IsSoundAllTheWayDown(numeral, schema, depth)
    decreases schema
  {
    hide IsSoundAllTheWayDown, ValidateSchemaNode, IsBelow, IsNode;
    if ValidateSchemaNode(numeral, schema, depth, false) {
      AcceptedIsSound(numeral, schema, depth);
    } else if IsSoundAllTheWayDown(numeral, schema, depth) {
      forall child | child < schema && IsBelow(child, schema)
        ensures ValidateSchemaNode(numeral, child, depth + 1, false)
      {
        WaysThroughChild(numeral, schema, child, depth);
        AcceptedMeansEveryNode(numeral, child, depth + 1);
      }
      SoundNode(numeral, schema, depth);
      AcceptedFromBelow(numeral, schema, depth);
    }
  }

  lemma AcceptedIsSound(numeral: Numeral, schema: Json, depth: nat)
    requires ValidateSchemaNode(numeral, schema, depth, false)
    ensures IsSoundAllTheWayDown(numeral, schema, depth)
  {
    hide IsNode, IsBelow, ValidateSchemaNode;
    forall chain | IsWayDown(schema, chain)
      ensures depth + |chain| <= MAX_SCHEMA_DEPTH + 1 && IsNode(numeral, chain[|chain| - 1])
    {
      AcceptedAllTheWayDown(numeral, chain, depth);
    }
  }

  lemma SoundNode(numeral: Numeral, schema: Json, depth: nat)
    requires IsSoundAllTheWayDown(numeral, schema, depth)
    ensures depth <= MAX_SCHEMA_DEPTH && IsNode(numeral, schema)
  {
    hide IsNode, IsBelow;
    assert IsWayDown(schema, [schema]);
  }

  lemma WaysThroughChild(numeral: Numeral, schema: Json, child: Json, depth: nat)
    requires IsBelow(child, schema) && IsSoundAllTheWayDown(numeral, schema, depth)
    ensures IsSoundAllTheWayDown(numeral, child, depth + 1)
  {
    hide IsNode, IsBelow;
    forall chain | IsWayDown(child, chain)
      ensures depth + 1 + |chain| <= MAX_SCHEMA_DEPTH + 1 && IsNode(numeral, chain[|chain| - 1])
    {
      var longer := [schema] + chain;
      assert forall i :: 0 < i < |longer| ==> longer[i] == chain[i - 1];
      assert IsWayDown(schema, longer);
      assert longer[|longer| - 1] == chain[|chain| - 1];
    }
  }

  lemma PropertyIsBelow(schema: Json, i: nat)
    requires At(schema, Properties).Some? && At(schema, Properties).value.Object?
    requires i < |At(schema, Properties).value.members|
    ensures At(schema, Properties).value.members[i].value < schema
    ensures IsBelow(At(schema, Properties).value.members[i].value, schema)
  {
    hide At, ListAt;
  }

  lemma ItemsAreBelow(schema: Json)
    requires At(schema, Items).Some?
    ensures At(schema, Items).value < schema && IsBelow(At(schema, Items).value, schema)
  {
    hide At, ListAt;
  }

  lemma NodeHasProperties(numeral: Numeral, schema: Json)
    requires IsNode(numeral, schema) && At(schema, Properties).Some?
    ensures At(schema, Properties).value.Object?
  {
    hide At, ListAt, HasSupportedKeys, HasSupportedLimits, TypeOf;
  }

  lemma AcceptedFromBelow(numeral: Numeral, schema: Json, depth: nat)
    requires depth <= MAX_SCHEMA_DEPTH && IsNode(numeral, schema)
    requires forall child :: child < schema && IsBelow(child, schema)
                    ==> ValidateSchemaNode(numeral, child, depth + 1, false)
    ensures ValidateSchemaNode(numeral, schema, depth, false)
  {
    hide IsNode, IsBelow, At, ListAt, TypeOf;
    if At(schema, Properties).Some? {
      NodeHasProperties(numeral, schema);
      var properties := At(schema, Properties).value.members;
      forall i | 0 <= i < |properties|
        ensures ValidateSchemaNode(numeral, properties[i].value, depth + 1, false)
      {
        PropertyIsBelow(schema, i);
      }
    }
    if At(schema, Items).Some? {
      ItemsAreBelow(schema);
    }
    ListedAreAccepted(numeral, schema, depth, AnyOf);
    ListedAreAccepted(numeral, schema, depth, OneOf);
    ListedAreAccepted(numeral, schema, depth, AllOf);
  }

  lemma ListedAreAccepted(numeral: Numeral, schema: Json, depth: nat, k: Keyword)
    requires k in {AnyOf, OneOf, AllOf}
    requires forall child :: child < schema && IsBelow(child, schema)
                    ==> ValidateSchemaNode(numeral, child, depth + 1, false)
    ensures forall i :: 0 <= i < |ListAt(schema, k)|
                   ==> ValidateSchemaNode(numeral, ListAt(schema, k)[i], depth + 1, false)
  {
    hide ValidateSchemaNode, IsBelow, At, ListAt;
    ListedAreBelow(schema);
  }

  // ---------- Matching ----------

  datatype Step = Index(i: nat) | Key(key: Text)

  datatype Reason =
    | WrongType | NotConst | NotAllowedValue | NoAllowedShape | NotExactlyOneShape
    | TooShort | TooLong | BelowMinimum | AboveMaximum | BelowExclusiveMinimum | AboveExclusiveMaximum
    | TooFewItems | TooManyItems | TooFewProperties | TooManyProperties
    | IsRequired(name: Text) | NotAllowed

  datatype Problem = Problem(path: seq<Step>, reason: Reason)

  function JsonEqual(left: Json, right: Json): bool {
    Stringify(left) == Stringify(right)
  }

  function MatchesType(numeral: Numeral, t: TypeName, value: Json): bool {
    match t
    case NullType => value.Null?
    case ArrayType => value.Array?
    case ObjectType => value.Object?
    case IntegerType => SafeInteger(numeral, value).Some?
    case StringType => value.String?
    case NumberType => value.Number?
    case BooleanType => value.Boolean?
  }

  function TooLittle(limit: Option<nat>, n: nat): bool {
    limit.Some? && n < limit.value
  }

  function TooMuch(limit: Option<nat>, n: nat): bool {
    limit.Some? && n > limit.value
  }

  function NumberProblem(numeral: Numeral, schema: Json, x: real): Option<Reason> {
    var min, max := Bound(numeral, schema, Minimum), Bound(numeral, schema, Maximum);
    var above, below := Bound(numeral, schema, ExclusiveMinimum), Bound(numeral, schema, ExclusiveMaximum);
    if min.Some? && x < min.value then Some(BelowMinimum)
    else if max.Some? && x > max.value then Some(AboveMaximum)
    else if above.Some? && x <= above.value then Some(BelowExclusiveMinimum)
    else if below.Some? && x >= below.value then Some(AboveExclusiveMaximum)
    else None
  }

  function LengthProblem(least: Option<nat>, most: Option<nat>, n: nat, few: Reason, many: Reason): Option<Reason> {
    if TooLittle(least, n) then Some(few) else if TooMuch(most, n) then Some(many) else None
  }

  function SizeProblem(numeral: Numeral, schema: Json, value: Json): Option<Reason> {
    match value
    case String(chars) =>
      LengthProblem(Count(numeral, schema, MinLength), Count(numeral, schema, MaxLength), |chars|, TooShort, TooLong)
    case Number(token) => NumberProblem(numeral, schema, numeral(token))
    case Array(items) =>
      LengthProblem(Count(numeral, schema, MinItems), Count(numeral, schema, MaxItems), |items|,
                    TooFewItems, TooManyItems)
    case Object(members) =>
      LengthProblem(Count(numeral, schema, MinProperties), Count(numeral, schema, MaxProperties), |members|,
                    TooFewProperties, TooManyProperties)
    case _ => None
  }

  function FirstMissing(names: seq<Json>, members: seq<Member>): Option<Text> {
    if names == [] then None
    else if names[0].String? && Get(members, names[0].chars).None? then Some(names[0].chars)
    else FirstMissing(names[1..], members)
  }

  function AnyEqual(options: seq<Json>, value: Json): bool {
    options != [] && (JsonEqual(options[0], value) || AnyEqual(options[1..], value))
  }

  ghost predicate AllBelow(children: seq<Json>, schema: Json) {
    forall i :: 0 <= i < |children| ==> children[i] < schema && IsBelow(children[i], schema)
  }

  lemma ListedAreBelow(schema: Json)
    ensures AllBelow(ListAt(schema, AllOf), schema)
    ensures AllBelow(ListAt(schema, AnyOf), schema)
    ensures AllBelow(ListAt(schema, OneOf), schema)
  {
    hide At, ListAt;
  }

  /** The first way the value fails the schema, in the order the keywords are looked at. */
  function MatchSchema(numeral: Numeral, schema: Json, value: Json, path: seq<Step>): Option<Problem>
    requires IsSchema(numeral, schema)
    decreases schema, 1, 0
  {
    var found := ShapeProblem(numeral, schema, value, path);
    if found.Some? then found
    else if SizeProblem(numeral, schema, value).Some?
    then Some(Problem(path, SizeProblem(numeral, schema, value).value))
    else
      match value
      case Array(items) =>
        if At(schema, Items).None? then None
        else MatchItems(numeral, schema, At(schema, Items).value, items, 0, path)
      case Object(members) =>
        var missing := FirstMissing(ListAt(schema, Required), members);
        if missing.Some? then Some(Problem(path, IsRequired(missing.value)))
        else MatchMembers(numeral, schema, members, path)
      case _ => None
  }

  /** Type, constants and combined schemas, which are looked at before anything else. */
  function ShapeProblem(numeral: Numeral, schema: Json, value: Json, path: seq<Step>): Option<Problem>
    requires IsSchema(numeral, schema)
    decreases schema, 0, 1
  {
    hide IsSchema, IsBelow, At, ListAt, IsListAt, TypeOf, MatchesType, JsonEqual, AnyEqual;
    SchemaHasType(numeral, schema);
    ListedAreBelow(schema);
    var all, any, one := ListAt(schema, AllOf), ListAt(schema, AnyOf), ListAt(schema, OneOf);
    if !MatchesType(numeral, TypeOf(schema).value, value) then Some(Problem(path, WrongType))
    else if At(schema, Const).Some? && !JsonEqual(value, At(schema, Const).value) then Some(Problem(path, NotConst))
    else if IsListAt(schema, Enum) && !AnyEqual(ListAt(schema, Enum), value) then Some(Problem(path, NotAllowedValue))
    else if FirstProblem(numeral, schema, all, value, path).Some? then FirstProblem(numeral, schema, all, value, path)
    else if IsListAt(schema, AnyOf) && CountMatches(numeral, schema, any, value) == 0
    then Some(Problem(path, NoAllowedShape))
    else if IsListAt(schema, OneOf) && CountMatches(numeral, schema, one, value) != 1
    then Some(Problem(path, NotExactlyOneShape))
    else None
  }

  function FirstProblem(numeral: Numeral, schema: Json, children: seq<Json>, value: Json,
                        path: seq<Step>): Option<Problem>
    requires IsSchema(numeral, schema) && AllBelow(children, schema)
    decreases schema, 0, 0, |children|
  {
    if children == [] then None
    else
      BelowIsSchema(numeral, schema, children[0]);
      var found := MatchSchema(numeral, children[0], value, path);
      if found.Some? then found else FirstProblem(numeral, schema, children[1..], value, path)
  }

  function CountMatches(numeral: Numeral, schema: Json, children: seq<Json>, value: Json): (n: nat)
    requires IsSchema(numeral, schema) && AllBelow(children, schema)
    decreases schema, 0, 0, |children|
  {
    if children == [] then 0
    else
      BelowIsSchema(numeral, schema, children[0]);
      (if MatchSchema(numeral, children[0], value, []).None? then 1 else 0)
      + CountMatches(numeral, schema, children[1..], value)
  }

  function MatchItems(numeral: Numeral, schema: Json, child: Json, items: seq<Json>, from: nat,
                      path: seq<Step>): Option<Problem>
    requires IsSchema(numeral, schema) && child < schema && IsBelow(child, schema) && from <= |items|
    decreases schema, 0, 0, |items| - from
  {
    if from == |items| then None
    else
      BelowIsSchema(numeral, schema, child);
      var found := MatchSchema(numeral, child, items[from], path + [Index(from)]);
      if found.Some? then found else MatchItems(numeral, schema, child, items, from + 1, path)
  }

  /** The schema for a property, if there is one. */
  function PropertyAt(numeral: Numeral, schema: Json, key: Text): (child: Option<Json>)
    requires IsSchema(numeral, schema)
    ensures child.Some? ==> child.value < schema && IsBelow(child.value, schema)
    ensures child.Some? && HasTokens(schema) ==> HasTokens(child.value)
  {
    if At(schema, Properties).None? then None else GetIn(At(schema, Properties).value, key)
  }

  predicate IsClosed(schema: Json) {
    At(schema, AdditionalProperties) == Some(Boolean(false))
  }

  function MatchMembers(numeral: Numeral, schema: Json, members: seq<Member>, path: seq<Step>): Option<Problem>
    requires IsSchema(numeral, schema)
    decreases schema, 0, 0, |members|
  {
    if members == [] then None
    else
      var here := path + [Key(members[0].key)];
      var child := PropertyAt(numeral, schema, members[0].key);
      if child.None? then
        if IsClosed(schema) then Some(Problem(here, NotAllowed)) else MatchMembers(numeral, schema, members[1..], path)
      else
        BelowIsSchema(numeral, schema, child.value);
        var found := MatchSchema(numeral, child.value, members[0].value, here);
        if found.Some? then found else MatchMembers(numeral, schema, members[1..], path)
  }

  // ---------- What it means to conform ----------

  ghost predicate AtLeast(limit: Option<nat>, n: nat) {
    limit.Some? ==> limit.value <= n
  }

  ghost predicate AtMost(limit: Option<nat>, n: nat) {
    limit.Some? ==> n <= limit.value
  }

  ghost predicate IsWithinLimits(numeral: Numeral, schema: Json, value: Json) {
    match value
    case String(chars) =>
      AtLeast(Count(numeral, schema, MinLength), |chars|) && AtMost(Count(numeral, schema, MaxLength), |chars|)
    case Number(token) =>
      && (Bound(numeral, schema, Minimum).Some? ==> Bound(numeral, schema, Minimum).value <= numeral(token))
      && (Bound(numeral, schema, Maximum).Some? ==> numeral(token) <= Bound(numeral, schema, Maximum).value)
      && (Bound(numeral, schema, ExclusiveMinimum).Some? ==>
            Bound(numeral, schema, ExclusiveMinimum).value < numeral(token))
      && (Bound(numeral, schema, ExclusiveMaximum).Some? ==>
            numeral(token) < Bound(numeral, schema, ExclusiveMaximum).value)
    case Array(items) =>
      AtLeast(Count(numeral, schema, MinItems), |items|) && AtMost(Count(numeral, schema, MaxItems), |items|)
    case Object(members) =>
      && AtLeast(Count(numeral, schema, MinProperties), |members|)
      && AtMost(Count(numeral, schema, MaxProperties), |members|)
    case _ => true
  }

  ghost predicate HasKey(members: seq<Member>, key: Text) {
    exists i :: 0 <= i < |members| && members[i].key == key
  }

  ghost predicate HasRequired(schema: Json, members: seq<Member>) {
    forall i :: 0 <= i < |ListAt(schema, Required)| && ListAt(schema, Required)[i].String?
                ==> HasKey(members, ListAt(schema, Required)[i].chars)
  }

  /** What the type, the constants and the combined schemas ask for: of oneOf, that exactly one position conforms. */
  ghost predicate ConformsAsAWhole(numeral: Numeral, schema: Json, value: Json)
    decreases schema, 0, 1
  {
    && TypeOf(schema).Some? && MatchesType(numeral, TypeOf(schema).value, value)
    && (At(schema, Const).Some? ==> value == At(schema, Const).value)
    && (IsListAt(schema, Enum) ==> value in ListAt(schema, Enum))
    && AllConform(numeral, schema, ListAt(schema, AllOf), value)
    && (IsListAt(schema, AnyOf) ==> OneConforms(numeral, schema, ListAt(schema, AnyOf), value))
    && (IsListAt(schema, OneOf) ==> OnlyOneConforms(numeral, schema, ListAt(schema, OneOf), value))
  }

  ghost predicate AllConform(numeral: Numeral, schema: Json, children: seq<Json>, value: Json)
    requires forall i :: 0 <= i < |children| ==> children[i] < schema
    decreases schema, 0, 0
  {
    forall i :: 0 <= i < |children| ==> Conforms(numeral, children[i], value)
  }

  ghost predicate OneConforms(numeral: Numeral, schema: Json, children: seq<Json>, value: Json)
    requires forall i :: 0 <= i < |children| ==> children[i] < schema
    decreases schema, 0, 0
  {
    exists i :: 0 <= i < |children| && Conforms(numeral, children[i], value)
  }

  ghost predicate OnlyOneConforms(numeral: Numeral, schema: Json, children: seq<Json>, value: Json)
    requires forall i :: 0 <= i < |children| ==> children[i] < schema
    decreases schema, 0, 0
  {
    exists i :: 0 <= i < |children| && Conforms(numeral, children[i], value)
      && forall j :: 0 <= j < |children| && j != i ==> !Conforms(numeral, children[j], value)
  }

  /** The conjunction of what the keywords of a schema ask for. */
  ghost predicate Conforms(numeral: Numeral, schema: Json, value: Json)
    decreases schema, 1
  {
    && ConformsAsAWhole(numeral, schema, value)
    && IsWithinLimits(numeral, schema, value)
    && (value.Array? && At(schema, Items).Some? ==>
          forall i :: 0 <= i < |value.items| ==> Conforms(numeral, At(schema, Items).value, value.items[i]))
    && (value.Object? ==>
          && HasRequired(schema, value.members)
          && forall i :: 0 <= i < |value.members| ==> MemberConforms(numeral, schema, value.members[i]))
  }

  /** A member with a schema of its own conforms to it; one without is there only if the schema is open. */
  ghost predicate MemberConforms(numeral: Numeral, schema: Json, member: Member)
    decreases schema, 0
  {
    if At(schema, Properties).Some? && GetIn(At(schema, Properties).value, member.key).Some?
    then Conforms(numeral, GetIn(At(schema, Properties).value, member.key).value, member.value)
    else !IsClosed(schema)
  }

  // ---------- Matching decides conformance ----------

  lemma JsonEqualIsEquality(left: Json, right: Json)
    requires HasTokens(left) && HasTokens(right)
    ensures JsonEqual(left, right) <==> left == right
  {
    if JsonEqual(left, right) {
      StringifyIsInjective(left, right);
    }
  }

  lemma {:induction false} AnyEqualIsMembership(options: seq<Json>, value: Json)
    requires HasTokens(value) && forall i :: 0 <= i < |options| ==> HasTokens(options[i])
    ensures AnyEqual(options, value) <==> value in options
  {
    if options != [] {
      JsonEqualIsEquality(options[0], value);
      AnyEqualIsMembership(options[1..], value);
      assert options == [options[0]] + options[1..];
    }
  }

  lemma {:induction false} FirstMissingDecides(names: seq<Json>, members: seq<Member>)
    ensures FirstMissing(names, members).None?
            <==> forall i :: 0 <= i < |names| && names[i].String? ==> HasKey(members, names[i].chars)
  {
    if names != [] {
      FirstMissingDecides(names[1..], members);
      assert names == [names[0]] + names[1..];
      assert forall i :: 0 < i < |names| ==> names[i] == names[1..][i - 1];
      if names[0].String? {
        assert Get(members, names[0].chars).Some? <==> HasKey(members, names[0].chars);
      }
    }
  }

  lemma SizeProblemDecides(numeral: Numeral, schema: Json, value: Json)
    ensures SizeProblem(numeral, schema, value).None? <==> IsWithinLimits(numeral, schema, value)
  {
    hide Count, Bound;
  }

  lemma {:induction false} MatchDecides(numeral: Numeral, schema: Json, value: Json, path: seq<Step>)
    requires IsSchema(numeral, schema) && HasTokens(schema) && HasTokens(value)
    ensures MatchSchema(numeral, schema, value, path).None? <==> Conforms(numeral, schema, value)
    decreases schema, 1, 0
  {
    hide IsSchema, IsWithinLimits, SizeProblem, FirstMissing, Name, ConformsAsAWhole, ShapeProblem, MemberConforms;
    ShapeDecides(numeral, schema, value, path);
    SizeProblemDecides(numeral, schema, value);
    match value {
      case Array(items) =>
        if At(schema, Items).Some? {
          ItemsDecide(numeral, schema, At(schema, Items).value, items, 0, path);
        }
      case Object(members) =>
        FirstMissingDecides(ListAt(schema, Required), members);
        MembersDecide(numeral, schema, members, path);
      case _ =>
    }
  }

  /** The same as Conforms, under a name that can be kept folded. */
  ghost predicate Suits(numeral: Numeral, schema: Json, value: Json) {
    Conforms(numeral, schema, value)
  }

  ghost predicate Somewhere(numeral: Numeral, children: seq<Json>, value: Json) {
    exists i :: 0 <= i < |children| && Suits(numeral, children[i], value)
  }

  ghost predicate Once(numeral: Numeral, children: seq<Json>, value: Json) {
    exists i: nat :: Only(numeral, children, value, i)
  }

  lemma OnceIs(numeral: Numeral, schema: Json, children: seq<Json>, value: Json)
    requires AllBelow(children, schema)
    ensures Once(numeral, children, value) <==> OnlyOneConforms(numeral, schema, children, value)
  {
    hide Conforms;
    if Once(numeral, children, value) {
      var i: nat :| Only(numeral, children, value, i);
      assert Suits(numeral, children[i], value);
      forall j | 0 <= j < |children| && j != i
        ensures !Conforms(numeral, children[j], value)
      {
        assert !Suits(numeral, children[j], value);
      }
    }
    if OnlyOneConforms(numeral, schema, children, value) {
      var i :| 0 <= i < |children| && Conforms(numeral, children[i], value)
               && forall j :: 0 <= j < |children| && j != i ==> !Conforms(numeral, children[j], value);
      assert Only(numeral, children, value, i);
    }
  }

  lemma SomewhereIs(numeral: Numeral, schema: Json, children: seq<Json>, value: Json)
    requires AllBelow(children, schema)
    ensures Somewhere(numeral, children, value) <==> OneConforms(numeral, schema, children, value)
  {
    if OneConforms(numeral, schema, children, value) {
      var i :| 0 <= i < |children| && Conforms(numeral, children[i], value);
      assert Suits(numeral, children[i], value);
    }
  }

  lemma {:induction false} ShapeDecides(numeral: Numeral, schema: Json, value: Json, path: seq<Step>)
    requires IsSchema(numeral, schema) && HasTokens(schema) && HasTokens(value)
    ensures ShapeProblem(numeral, schema, value, path).None? <==> ConformsAsAWhole(numeral, schema, value)
    decreases schema, 0, 1
  {
    hide IsSchema, IsBelow, At, ListAt, IsListAt, TypeOf, MatchesType, SizeProblem, JsonEqual, AnyEqual, Somewhere,
         Once, AllConform,
         OneConforms, OnlyOneConforms, Conforms, HasTokens;
    var all, any, one := ListAt(schema, AllOf), ListAt(schema, AnyOf), ListAt(schema, OneOf);
    SchemaHasType(numeral, schema);
    ConstDecides(schema, value);
    AnyEqualIsMembership(ListAt(schema, Enum), value);
    ListedAreBelow(schema);
    FirstProblemDecides(numeral, schema, all, value, path);
    CountDecides(numeral, schema, any, value);
    CountDecides(numeral, schema, one, value);
    SomewhereIs(numeral, schema, any, value);
    OnceIs(numeral, schema, one, value);
  }

  lemma ConstDecides(schema: Json, value: Json)
    requires HasTokens(schema) && HasTokens(value)
    ensures At(schema, Const).Some?
            ==> (JsonEqual(value, At(schema, Const).value) <==> value == At(schema, Const).value)
  {
    hide At, JsonEqual;
    if At(schema, Const).Some? {
      JsonEqualIsEquality(value, At(schema, Const).value);
    }
  }

  lemma {:induction false} FirstProblemDecides(numeral: Numeral, schema: Json, children: seq<Json>, value: Json,
                                               path: seq<Step>)
    requires IsSchema(numeral, schema) && AllBelow(children, schema) && HasTokens(value)
    requires forall i :: 0 <= i < |children| ==> HasTokens(children[i])
    ensures FirstProblem(numeral, schema, children, value, path).None? <==> AllConform(numeral, schema, children, value)
    decreases schema, 0, 0, |children|
  {
    hide IsSchema, IsBelow, At, ListAt, SizeProblem, TypeOf, HasTokens, Conforms;
    if children != [] {
      BelowIsSchema(numeral, schema, children[0]);
      MatchDecides(numeral, children[0], value, path);
      FirstProblemDecides(numeral, schema, children[1..], value, path);
      assert forall i :: 0 < i < |children| ==> children[i] == children[1..][i - 1];
    }
  }

  lemma {:induction false} CountDecides(numeral: Numeral, schema: Json, children: seq<Json>, value: Json)
    requires IsSchema(numeral, schema) && AllBelow(children, schema) && HasTokens(value)
    requires forall i :: 0 <= i < |children| ==> HasTokens(children[i])
    ensures CountMatches(numeral, schema, children, value) > 0 <==> Somewhere(numeral, children, value)
    ensures CountMatches(numeral, schema, children, value) == 1 <==> Once(numeral, children, value)
    decreases schema, 0, 0, |children|
  {
    hide IsSchema, IsBelow, At, ListAt, SizeProblem, TypeOf, HasTokens, Conforms, Once, Somewhere;
    if children != [] {
      BelowIsSchema(numeral, schema, children[0]);
      MatchDecides(numeral, children[0], value, []);
      CountDecides(numeral, schema, children[1..], value);
      SomewhereElse(numeral, children, value);
      OneMore(numeral, children, value);
    } else {
      NoneConforms(numeral, value);
    }
  }

  lemma NoneConforms(numeral: Numeral, value: Json)
    ensures !Somewhere(numeral, [], value) && !Once(numeral, [], value)
  {
  }

  /** Exactly the child at position i suits the value. */
  ghost predicate Only(numeral: Numeral, children: seq<Json>, value: Json, i: nat) {
    i < |children| && Suits(numeral, children[i], value)
    && forall j :: 0 <= j < |children| && j != i ==> !Suits(numeral, children[j], value)
  }

  lemma SomewhereElse(numeral: Numeral, children: seq<Json>, value: Json)
    requires children != []
    ensures Somewhere(numeral, children, value)
            <==> Suits(numeral, children[0], value) || Somewhere(numeral, children[1..], value)
  {
    hide Suits;
    if Somewhere(numeral, children, value) && !Suits(numeral, children[0], value) {
      var i :| 0 <= i < |children| && Suits(numeral, children[i], value);
      assert children[1..][i - 1] == children[i];
    }
    if Somewhere(numeral, children[1..], value) {
      var i :| 0 <= i < |children[1..]| && Suits(numeral, children[1..][i], value);
      assert children[1..][i] == children[i + 1];
    }
  }

  lemma OnlyLater(numeral: Numeral, children: seq<Json>, value: Json, i: nat)
    requires children != []
    ensures Only(numeral, children, value, i + 1)
            <==> !Suits(numeral, children[0], value) && Only(numeral, children[1..], value, i)
  {
    hide Suits;
    var rest := children[1..];
    if Only(numeral, children, value, i + 1) {
      assert rest[i] == children[i + 1];
      forall j | 0 <= j < |rest| && j != i
        ensures !Suits(numeral, rest[j], value)
      {
        assert rest[j] == children[j + 1];
      }
    }
    if !Suits(numeral, children[0], value) && Only(numeral, rest, value, i) {
      assert rest[i] == children[i + 1];
      forall j | 0 <= j < |children| && j != i + 1
        ensures !Suits(numeral, children[j], value)
      {
        if j > 0 {
          assert children[j] == rest[j - 1];
        }
      }
    }
  }

  lemma OnlyNow(numeral: Numeral, children: seq<Json>, value: Json)
    requires children != []
    ensures Only(numeral, children, value, 0)
            <==> Suits(numeral, children[0], value) && !Somewhere(numeral, children[1..], value)
  {
    hide Suits;
    var rest := children[1..];
    if Only(numeral, children, value, 0) {
      forall j | 0 <= j < |rest|
        ensures !Suits(numeral, rest[j], value)
      {
        assert rest[j] == children[j + 1];
      }
    }
    if Suits(numeral, children[0], value) && !Somewhere(numeral, rest, value) {
      forall j | 0 < j < |children|
        ensures !Suits(numeral, children[j], value)
      {
        assert children[j] == rest[j - 1];
      }
    }
  }

  lemma OneMore(numeral: Numeral, children: seq<Json>, value: Json)
    requires children != []
    ensures Once(numeral, children, value)
            <==> if Suits(numeral, children[0], value) then !Somewhere(numeral, children[1..], value)
                 else Once(numeral, children[1..], value)
  {
    hide Suits, Only, Somewhere;
    OnlyNow(numeral, children, value);
    if Suits(numeral, children[0], value) {
      OnlySuits(numeral, children, value);
    }
    if Once(numeral, children, value) && !Suits(numeral, children[0], value) {
      var i: nat :| Only(numeral, children, value, i);
      OnlyLater(numeral, children, value, i - 1);
    }
    if Once(numeral, children[1..], value) {
      var i: nat :| Only(numeral, children[1..], value, i);
      OnlyLater(numeral, children, value, i);
    }
  }

  lemma OnlySuits(numeral: Numeral, children: seq<Json>, value: Json)
    requires children != [] && Suits(numeral, children[0], value)
    ensures forall i: nat :: Only(numeral, children, value, i) ==> i == 0
  {
    hide Suits;
  }

  lemma {:induction false} ItemsDecide(numeral: Numeral, schema: Json, child: Json, items: seq<Json>, from: nat,
                                       path: seq<Step>)
    requires IsSchema(numeral, schema) && child < schema && IsBelow(child, schema) && from <= |items|
    requires HasTokens(child) && forall i :: 0 <= i < |items| ==> HasTokens(items[i])
    ensures MatchItems(numeral, schema, child, items, from, path).None?
            <==> forall i :: from <= i < |items| ==> Conforms(numeral, child, items[i])
    decreases schema, 0, 0, |items| - from
  {
    hide IsSchema, IsBelow, At, ListAt, SizeProblem, TypeOf, HasTokens, Conforms;
    if from < |items| {
      BelowIsSchema(numeral, schema, child);
      MatchDecides(numeral, child, items[from], path + [Index(from)]);
      ItemsDecide(numeral, schema, child, items, from + 1, path);
    }
  }

  lemma {:induction false} MembersDecide(numeral: Numeral, schema: Json, members: seq<Member>, path: seq<Step>)
    requires IsSchema(numeral, schema) && HasTokens(schema)
    requires forall i :: 0 <= i < |members| ==> HasTokens(members[i].value)
    ensures MatchMembers(numeral, schema, members, path).None?
            <==> forall i :: 0 <= i < |members| ==> MemberConforms(numeral, schema, members[i])
    decreases schema, 0, 0, |members|
  {
    hide IsSchema, IsBelow, At, ListAt, SizeProblem, TypeOf, HasTokens, Conforms,IsClosed;
    if members != [] {
      var child := PropertyAt(numeral, schema, members[0].key);
      if child.Some? {
        BelowIsSchema(numeral, schema, child.value);
        MatchDecides(numeral, child.value, members[0].value, path + [Key(members[0].key)]);
      }
      MembersDecide(numeral, schema, members[1..], path);
      assert forall i :: 0 < i < |members| ==> members[i] == members[1..][i - 1];
    }
  }
}
