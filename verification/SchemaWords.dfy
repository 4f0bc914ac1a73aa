/**
 * Tool input schemas in their own words: what a schema that is written out says of the values
 * it accepts, keyword by keyword.
 */
module SchemaWords {
  import opened Prelude
  import opened CanonicalJson
  import opened PlainJson
  import opened ToolSchema

  /** The schema has a member of that name and value. */
  ghost predicate Says(schema: Json, word: string, v: Json) {
    schema.Object? && exists i :: 0 <= i < |schema.members| && schema.members[i] == Member(Ascii(word), v)
  }

  /** The word a keyword is looked up by. */
  ghost predicate IsReadAs(schema: Json, k: Keyword, word: string) {
    && (At(schema, k).Some? ==> Says(schema, word, At(schema, k).value))
    && forall v :: Says(schema, word, v) ==> At(schema, k) == Some(v)
  }

  lemma ReadsAs(schema: Json, k: Keyword, word: string)
    requires IsJson(schema) && Name(k) == Ascii(word)
    ensures IsReadAs(schema, k, word)
  {
    hide Ascii, Name;
  }

  lemma ShapeWords(schema: Json)
    requires IsJson(schema)
    ensures IsReadAs(schema, Type, "type")
    ensures IsReadAs(schema, Const, "const")
    ensures IsReadAs(schema, Enum, "enum")
    ensures IsReadAs(schema, AllOf, "allOf")
    ensures IsReadAs(schema, AnyOf, "anyOf")
    ensures IsReadAs(schema, OneOf, "oneOf")
  {
    hide Ascii, IsReadAs;
    ReadsAs(schema, Type, "type");
    ReadsAs(schema, Const, "const");
    ReadsAs(schema, Enum, "enum");
    ReadsAs(schema, AllOf, "allOf");
    ReadsAs(schema, AnyOf, "anyOf");
    ReadsAs(schema, OneOf, "oneOf");
  }

  lemma ChildWords(schema: Json)
    requires IsJson(schema)
    ensures IsReadAs(schema, Items, "items")
    ensures IsReadAs(schema, Properties, "properties")
    ensures IsReadAs(schema, Required, "required")
    ensures IsReadAs(schema, AdditionalProperties, "additionalProperties")
  {
    hide Ascii, IsReadAs;
    ReadsAs(schema, Items, "items");
    ReadsAs(schema, Properties, "properties");
    ReadsAs(schema, Required, "required");
    ReadsAs(schema, AdditionalProperties, "additionalProperties");
  }

  lemma SizeWords(schema: Json)
    requires IsJson(schema)
    ensures IsReadAs(schema, MinLength, "minLength")
    ensures IsReadAs(schema, MaxLength, "maxLength")
    ensures IsReadAs(schema, MinItems, "minItems")
    ensures IsReadAs(schema, MaxItems, "maxItems")
    ensures IsReadAs(schema, MinProperties, "minProperties")
    ensures IsReadAs(schema, MaxProperties, "maxProperties")
  {
    hide Ascii, IsReadAs;
    ReadsAs(schema, MinLength, "minLength");
    ReadsAs(schema, MaxLength, "maxLength");
    ReadsAs(schema, MinItems, "minItems");
    ReadsAs(schema, MaxItems, "maxItems");
    ReadsAs(schema, MinProperties, "minProperties");
    ReadsAs(schema, MaxProperties, "maxProperties");
  }

  lemma BoundWords(schema: Json)
    requires IsJson(schema)
    ensures IsReadAs(schema, Minimum, "minimum")
    ensures IsReadAs(schema, Maximum, "maximum")
    ensures IsReadAs(schema, ExclusiveMinimum, "exclusiveMinimum")
    ensures IsReadAs(schema, ExclusiveMaximum, "exclusiveMaximum")
  {
    hide Ascii, IsReadAs;
    ReadsAs(schema, Minimum, "minimum");
    ReadsAs(schema, Maximum, "maximum");
    ReadsAs(schema, ExclusiveMinimum, "exclusiveMinimum");
    ReadsAs(schema, ExclusiveMaximum, "exclusiveMaximum");
  }

  lemma NoteWords(schema: Json)
    requires IsJson(schema)
    ensures IsReadAs(schema, Title, "title")
    ensures IsReadAs(schema, Description, "description")
  {
    hide Ascii, IsReadAs;
    ReadsAs(schema, Title, "title");
    ReadsAs(schema, Description, "description");
  }

  // ---------- Types ----------

  ghost predicate IsSafeInteger(x: real) {
    x == x.Floor as real && -9_007_199_254_740_991.0 <= x <= 9_007_199_254_740_991.0
  }

  /** The value has the type the schema names. */
  ghost predicate FitsType(numeral: Numeral, schema: Json, value: Json) {
    && (Says(schema, "type", String(Ascii("object"))) ==> value.Object?)
    && (Says(schema, "type", String(Ascii("array"))) ==> value.Array?)
    && (Says(schema, "type", String(Ascii("string"))) ==> value.String?)
    && (Says(schema, "type", String(Ascii("number"))) ==> value.Number?)
    && (Says(schema, "type", String(Ascii("integer"))) ==> value.Number? && IsSafeInteger(numeral(value.token)))
    && (Says(schema, "type", String(Ascii("boolean"))) ==> value.Boolean?)
    && (Says(schema, "type", String(Ascii("null"))) ==> value.Null?)
  }

  /** One of the seven types is named. */
  ghost predicate NamesType(schema: Json) {
    || Says(schema, "type", String(Ascii("object"))) || Says(schema, "type", String(Ascii("array")))
    || Says(schema, "type", String(Ascii("string"))) || Says(schema, "type", String(Ascii("number")))
    || Says(schema, "type", String(Ascii("integer"))) || Says(schema, "type", String(Ascii("boolean")))
    || Says(schema, "type", String(Ascii("null")))
  }

  /** The word for a type, and what the word means. */
  ghost predicate IsWordFor(schema: Json, word: string, t: TypeName) {
    TypeOf(schema) == Some(t) <==> Says(schema, "type", String(Ascii(word)))
  }

  lemma WordIsFor(schema: Json, word: string, t: TypeName)
    requires IsReadAs(schema, Type, "type") && IsNameOf(Ascii(word), t)
    ensures IsWordFor(schema, word, t)
  {
    hide Ascii, Says, At, TypeNamed;
  }

  ghost predicate IsNameOf(word: Text, t: TypeName) {
    forall name :: TypeNamed(name) == Some(t) <==> name == word
  }

  lemma FirstLetters()
    ensures Ascii("object") != [] && Ascii("object")[0] == 111
    ensures Ascii("array") != [] && Ascii("array")[0] == 97
    ensures Ascii("string") != [] && Ascii("string")[0] == 115
    ensures Ascii("number") != [] && Ascii("number")[0] == 110 && |Ascii("number")| == 6
    ensures Ascii("integer") != [] && Ascii("integer")[0] == 105
    ensures Ascii("boolean") != [] && Ascii("boolean")[0] == 98
    ensures Ascii("null") != [] && Ascii("null")[0] == 110 && |Ascii("null")| == 4
  {
    hide Ascii;
    AsciiAt("object", 0);
    AsciiAt("array", 0);
    AsciiAt("string", 0);
    AsciiAt("number", 0);
    AsciiAt("integer", 0);
    AsciiAt("boolean", 0);
    AsciiAt("null", 0);
  }

  lemma NamedTypes()
    ensures IsNameOf(Ascii("object"), ObjectType) && IsNameOf(Ascii("array"), ArrayType)
    ensures IsNameOf(Ascii("string"), StringType) && IsNameOf(Ascii("number"), NumberType)
    ensures IsNameOf(Ascii("integer"), IntegerType) && IsNameOf(Ascii("boolean"), BooleanType)
    ensures IsNameOf(Ascii("null"), NullType)
  {
    hide Ascii;
    FirstLetters();
  }

  lemma TypeWords(schema: Json)
    requires IsJson(schema)
    ensures IsWordFor(schema, "object", ObjectType) && IsWordFor(schema, "array", ArrayType)
    ensures IsWordFor(schema, "string", StringType) && IsWordFor(schema, "number", NumberType)
    ensures IsWordFor(schema, "integer", IntegerType) && IsWordFor(schema, "boolean", BooleanType)
    ensures IsWordFor(schema, "null", NullType)
  {
    hide Ascii, IsNameOf, IsWordFor, IsReadAs;
    ShapeWords(schema);
    NamedTypes();
    WordIsFor(schema, "object", ObjectType);
    WordIsFor(schema, "array", ArrayType);
    WordIsFor(schema, "string", StringType);
    WordIsFor(schema, "number", NumberType);
    WordIsFor(schema, "integer", IntegerType);
    WordIsFor(schema, "boolean", BooleanType);
    WordIsFor(schema, "null", NullType);
  }

  lemma TypeFits(numeral: Numeral, schema: Json, value: Json)
    requires IsJson(schema) && TypeOf(schema).Some?
    ensures MatchesType(numeral, TypeOf(schema).value, value) <==> FitsType(numeral, schema, value)
  {
    hide Ascii, Says, At, IsJson, SafeInteger, IsSafeInteger, TypeOf;
    TypeWords(schema);
    SafeIntegers(numeral, value);
  }

  lemma TypeIsNamed(schema: Json)
    requires IsJson(schema)
    ensures TypeOf(schema).Some? <==> NamesType(schema)
    ensures TypeOf(schema) == Some(ObjectType) <==> Says(schema, "type", String(Ascii("object")))
  {
    hide Ascii, Says, At, IsJson, TypeOf;
    TypeWords(schema);
    if TypeOf(schema).Some? {
      assert var t := TypeOf(schema).value;
             || t.ObjectType? || t.ArrayType? || t.StringType? || t.NumberType? || t.IntegerType? || t.BooleanType?
             || t.NullType?;
    }
  }

  lemma SafeIntegers(numeral: Numeral, value: Json)
    ensures SafeInteger(numeral, value).Some? <==> value.Number? && IsSafeInteger(numeral(value.token))
    ensures SafeInteger(numeral, value).Some? ==> SafeInteger(numeral, value).value as real == numeral(value.token)
  {
  }

  // ---------- Limits ----------

  ghost predicate FitsLength(numeral: Numeral, schema: Json, least: string, most: string, n: nat) {
    && (forall t :: Says(schema, least, Number(t)) ==> numeral(t) <= n as real)
    && (forall t :: Says(schema, most, Number(t)) ==> n as real <= numeral(t))
  }

  ghost predicate FitsLimits(numeral: Numeral, schema: Json, value: Json) {
    match value
    case String(chars) => FitsLength(numeral, schema, "minLength", "maxLength", |chars|)
    case Array(items) => FitsLength(numeral, schema, "minItems", "maxItems", |items|)
    case Object(members) => FitsLength(numeral, schema, "minProperties", "maxProperties", |members|)
    case Number(token) =>
      && (forall t :: Says(schema, "minimum", Number(t)) ==> numeral(t) <= numeral(token))
      && (forall t :: Says(schema, "maximum", Number(t)) ==> numeral(token) <= numeral(t))
      && (forall t :: Says(schema, "exclusiveMinimum", Number(t)) ==> numeral(t) < numeral(token))
      && (forall t :: Says(schema, "exclusiveMaximum", Number(t)) ==> numeral(token) < numeral(t))
    case _ => true
  }

  lemma LengthFits(numeral: Numeral, schema: Json, least: Keyword, most: Keyword, few: string, many: string, n: nat)
    requires IsReadAs(schema, least, few) && IsReadAs(schema, most, many)
    requires At(schema, least).Some? ==> Count(numeral, schema, least).Some?
    requires At(schema, most).Some? ==> Count(numeral, schema, most).Some?
    ensures AtLeast(Count(numeral, schema, least), n) && AtMost(Count(numeral, schema, most), n)
            <==> FitsLength(numeral, schema, few, many, n)
  {
    CountReads(numeral, schema, least, few);
    CountReads(numeral, schema, most, many);
    hide Says, At, Count, IsReadAs;
    if At(schema, least).Some? {
      assert Says(schema, few, Number(At(schema, least).value.token));
    }
    if At(schema, most).Some? {
      assert Says(schema, many, Number(At(schema, most).value.token));
    }
  }

  lemma CountReads(numeral: Numeral, schema: Json, k: Keyword, word: string)
    requires IsReadAs(schema, k, word) && (At(schema, k).Some? ==> Count(numeral, schema, k).Some?)
    ensures Count(numeral, schema, k).Some? <==> At(schema, k).Some?
    ensures At(schema, k).Some?
            ==> && At(schema, k).value.Number?
                && Count(numeral, schema, k).value as real == numeral(At(schema, k).value.token)
    ensures forall t :: Says(schema, word, Number(t)) <==> At(schema, k) == Some(Number(t))
  {
    hide Says, At, SafeInteger;
    if At(schema, k).Some? {
      SafeIntegers(numeral, At(schema, k).value);
    }
  }

  lemma NumberFits(numeral: Numeral, schema: Json, token: Text)
    requires IsJson(schema)
    ensures IsWithinLimits(numeral, schema, Number(token)) <==> FitsLimits(numeral, schema, Number(token))
  {
    hide IsJson, IsReadAs, Says, At, Bound, Ascii;
    BoundWords(schema);
    BoundReads(numeral, schema, Minimum, "minimum");
    BoundReads(numeral, schema, Maximum, "maximum");
    BoundReads(numeral, schema, ExclusiveMinimum, "exclusiveMinimum");
    BoundReads(numeral, schema, ExclusiveMaximum, "exclusiveMaximum");
  }

  lemma BoundReads(numeral: Numeral, schema: Json, k: Keyword, word: string)
    requires IsReadAs(schema, k, word)
    ensures forall t :: Says(schema, word, Number(t)) ==> Bound(numeral, schema, k) == Some(numeral(t))
    ensures Bound(numeral, schema, k).Some?
            ==> exists t :: Says(schema, word, Number(t)) && Bound(numeral, schema, k).value == numeral(t)
  {
    hide Says, At;
    if Bound(numeral, schema, k).Some? {
      assert Says(schema, word, Number(At(schema, k).value.token));
    }
  }

  lemma LimitsFit(numeral: Numeral, schema: Json, value: Json)
    requires IsJson(schema) && HasSupportedLimits(numeral, schema)
    ensures IsWithinLimits(numeral, schema, value) <==> FitsLimits(numeral, schema, value)
  {
    SizeWords(schema);
    hide At, Count, Bound, IsListAt, ListAt, IsReadAs, FitsLength, IsRequiredList, AtLeast, AtMost;
    match value {
      case Number(token) => NumberFits(numeral, schema, token);
      case String(chars) => LengthFits(numeral, schema, MinLength, MaxLength, "minLength", "maxLength", |chars|);
      case Array(items) => LengthFits(numeral, schema, MinItems, MaxItems, "minItems", "maxItems", |items|);
      case Object(members) =>
        LengthFits(numeral, schema, MinProperties, MaxProperties, "minProperties", "maxProperties", |members|);
      case _ =>
    }
  }

  // ---------- Constants and combined schemas ----------

  ghost predicate FitsConstants(schema: Json, value: Json) {
    && (forall v :: Says(schema, "const", v) ==> value == v)
    && (forall vs :: Says(schema, "enum", Array(vs)) ==> value in vs)
  }

  ghost predicate FitsEach(numeral: Numeral, children: seq<Json>, value: Json) {
    forall i :: 0 <= i < |children| ==> Conforms(numeral, children[i], value)
  }

  ghost predicate FitsSome(numeral: Numeral, children: seq<Json>, value: Json) {
    exists i :: 0 <= i < |children| && Conforms(numeral, children[i], value)
  }

  ghost predicate FitsOne(numeral: Numeral, children: seq<Json>, value: Json) {
    exists i :: 0 <= i < |children| && Conforms(numeral, children[i], value)
                && forall j :: 0 <= j < |children| && j != i ==> !Conforms(numeral, children[j], value)
  }

  ghost predicate FitsCombined(numeral: Numeral, schema: Json, value: Json) {
    && (forall children :: Says(schema, "allOf", Array(children)) ==> FitsEach(numeral, children, value))
    && (forall children :: Says(schema, "anyOf", Array(children)) ==> FitsSome(numeral, children, value))
    && (forall children :: Says(schema, "oneOf", Array(children)) ==> FitsOne(numeral, children, value))
  }

  /** An accepted node has its enumeration, if any, as a list, and so its combined schemas. */
  lemma ListsAreRead(numeral: Numeral, schema: Json)
    requires IsNode(numeral, schema)
    ensures forall k :: k in {Enum, AllOf, AnyOf, OneOf} && At(schema, k).Some?
                        ==> IsListAt(schema, k) && At(schema, k) == Some(Array(ListAt(schema, k)))
  {
    hide At, Count, Bound, IsRequiredList, HasSupportedKeys, TypeOf;
    forall k | k in {Enum, AllOf, AnyOf, OneOf} && At(schema, k).Some?
      ensures IsListAt(schema, k) && At(schema, k) == Some(Array(ListAt(schema, k)))
    {
    }
  }

  /** The lists written under a word: that one, if it is there. */
  ghost predicate Lists(schema: Json, word: string, isThere: bool, list: seq<Json>) {
    forall vs :: Says(schema, word, Array(vs)) <==> isThere && vs == list
  }

  lemma ListReads(schema: Json, k: Keyword, word: string)
    requires IsReadAs(schema, k, word)
    requires At(schema, k).Some? ==> IsListAt(schema, k) && At(schema, k) == Some(Array(ListAt(schema, k)))
    ensures Lists(schema, word, IsListAt(schema, k), ListAt(schema, k))
  {
    hide At, Says;
  }

  lemma AnyListed(numeral: Numeral, schema: Json, word: string, isThere: bool, list: seq<Json>, value: Json)
    requires Lists(schema, word, isThere, list)
    ensures (isThere ==> value in list) <==> forall vs :: Says(schema, word, Array(vs)) ==> value in vs
    ensures (isThere ==> FitsEach(numeral, list, value))
            <==> forall vs :: Says(schema, word, Array(vs)) ==> FitsEach(numeral, vs, value)
    ensures (isThere ==> FitsSome(numeral, list, value))
            <==> forall vs :: Says(schema, word, Array(vs)) ==> FitsSome(numeral, vs, value)
    ensures (isThere ==> FitsOne(numeral, list, value))
            <==> forall vs :: Says(schema, word, Array(vs)) ==> FitsOne(numeral, vs, value)
  {
    hide Says, FitsEach, FitsSome, FitsOne;
    if isThere {
      assert Says(schema, word, Array(list));
    }
  }

  lemma ConstantsFit(numeral: Numeral, schema: Json, value: Json)
    requires IsJson(schema) && IsNode(numeral, schema)
    ensures && (At(schema, Const).Some? ==> value == At(schema, Const).value)
            && (IsListAt(schema, Enum) ==> value in ListAt(schema, Enum))
            <==> FitsConstants(schema, value)
  {
    hide At, Says, IsListAt, ListAt, IsNode, IsJson, Lists, IsReadAs;
    ShapeWords(schema);
    ListsAreRead(numeral, schema);
    ListReads(schema, Enum, "enum");
    AnyListed(numeral, schema, "enum", IsListAt(schema, Enum), ListAt(schema, Enum), value);
    ConstantFits(schema, value);
  }

  lemma ConstantFits(schema: Json, value: Json)
    requires IsReadAs(schema, Const, "const")
    ensures (At(schema, Const).Some? ==> value == At(schema, Const).value)
            <==> forall v :: Says(schema, "const", v) ==> value == v
  {
    hide At, Says;
    if At(schema, Const).Some? {
      assert Says(schema, "const", At(schema, Const).value);
    }
  }

  lemma CombinersFit(numeral: Numeral, schema: Json, children: seq<Json>, value: Json)
    requires AllBelow(children, schema)
    ensures AllConform(numeral, schema, children, value) <==> FitsEach(numeral, children, value)
    ensures OneConforms(numeral, schema, children, value) <==> FitsSome(numeral, children, value)
    ensures OnlyOneConforms(numeral, schema, children, value) <==> FitsOne(numeral, children, value)
  {
    hide IsBelow, Conforms;
  }

  lemma CombinedFit(numeral: Numeral, schema: Json, value: Json)
    requires IsJson(schema) && IsNode(numeral, schema)
    ensures AllBelow(ListAt(schema, AllOf), schema) && AllBelow(ListAt(schema, AnyOf), schema)
    ensures AllBelow(ListAt(schema, OneOf), schema)
    ensures && AllConform(numeral, schema, ListAt(schema, AllOf), value)
            && (IsListAt(schema, AnyOf) ==> OneConforms(numeral, schema, ListAt(schema, AnyOf), value))
            && (IsListAt(schema, OneOf) ==> OnlyOneConforms(numeral, schema, ListAt(schema, OneOf), value))
            <==> FitsCombined(numeral, schema, value)
  {
    hide At, Says, IsListAt, ListAt, IsNode, IsJson, Lists, IsReadAs, IsBelow, FitsEach, FitsSome, FitsOne,
         AllConform, OneConforms, OnlyOneConforms;
    ListedAreBelow(schema);
    ShapeWords(schema);
    ListsAreRead(numeral, schema);
    ListReads(schema, AllOf, "allOf");
    ListReads(schema, AnyOf, "anyOf");
    ListReads(schema, OneOf, "oneOf");
    AnyListed(numeral, schema, "allOf", IsListAt(schema, AllOf), ListAt(schema, AllOf), value);
    AnyListed(numeral, schema, "anyOf", IsListAt(schema, AnyOf), ListAt(schema, AnyOf), value);
    AnyListed(numeral, schema, "oneOf", IsListAt(schema, OneOf), ListAt(schema, OneOf), value);
    CombinersFit(numeral, schema, ListAt(schema, AllOf), value);
    CombinersFit(numeral, schema, ListAt(schema, AnyOf), value);
    CombinersFit(numeral, schema, ListAt(schema, OneOf), value);
    NoListNoItems(schema);
    EachOfNone(numeral, value);
  }

  lemma EachOfNone(numeral: Numeral, value: Json)
    ensures FitsEach(numeral, [], value)
  {
  }

  lemma NoListNoItems(schema: Json)
    ensures !IsListAt(schema, AllOf) ==> ListAt(schema, AllOf) == []
  {
    hide At;
  }

  // ---------- Items and members ----------

  ghost predicate FitsItems(numeral: Numeral, schema: Json, value: Json) {
    value.Array? ==>
      forall child, i :: Says(schema, "items", child) && 0 <= i < |value.items|
                         ==> Conforms(numeral, child, value.items[i])
  }

  /** The schema describes the property of that name so. */
  ghost predicate Describes(schema: Json, key: Text, child: Json) {
    exists ps :: Says(schema, "properties", Object(ps)) && Member(key, child) in ps
  }

  /** A described member conforms, and a closed schema describes it. */
  ghost predicate FitsMember(numeral: Numeral, schema: Json, member: Member) {
    && (forall child :: Describes(schema, member.key, child) ==> Conforms(numeral, child, member.value))
    && (Says(schema, "additionalProperties", Boolean(false)) ==> exists child :: Describes(schema, member.key, child))
  }

  ghost predicate FitsMembers(numeral: Numeral, schema: Json, value: Json) {
    value.Object? ==>
      && (forall names, name :: Says(schema, "required", Array(names)) && String(name) in names
                                ==> HasKey(value.members, name))
      && forall i :: 0 <= i < |value.members| ==> FitsMember(numeral, schema, value.members[i])
  }

  lemma AtIsJson(schema: Json, k: Keyword)
    requires IsJson(schema) && At(schema, k).Some?
    ensures IsJson(At(schema, k).value)
  {
    hide Name;
  }

  lemma GetsMember(ps: seq<Member>, key: Text)
    requires DistinctKeys(ps)
    ensures forall child :: Get(ps, key) == Some(child) <==> Member(key, child) in ps
  {
  }

  lemma DescribedIs(numeral: Numeral, schema: Json, key: Text)
    requires IsJson(schema) && IsNode(numeral, schema)
    ensures forall child :: Describes(schema, key, child)
                            <==> At(schema, Properties).Some? && GetIn(At(schema, Properties).value, key) == Some(child)
  {
    hide At, Says, IsNode, IsJson, Get, DistinctKeys;
    ChildWords(schema);
    if At(schema, Properties).Some? {
      NodeHasProperties(numeral, schema);
      AtIsJson(schema, Properties);
      var ps := At(schema, Properties).value.members;
      DistinctMembers(At(schema, Properties).value);
      GetsMember(ps, key);
      assert Says(schema, "properties", Object(ps));
      assert forall qs :: Says(schema, "properties", Object(qs)) ==> qs == ps;
    }
  }

  lemma DistinctMembers(v: Json)
    requires IsJson(v) && v.Object?
    ensures DistinctKeys(v.members)
  {
  }

  lemma ItemsFit(numeral: Numeral, schema: Json, value: Json)
    requires IsJson(schema)
    ensures (value.Array? && At(schema, Items).Some? ==>
               forall i :: 0 <= i < |value.items| ==> Conforms(numeral, At(schema, Items).value, value.items[i]))
            <==> FitsItems(numeral, schema, value)
  {
    ChildWords(schema);
    hide At, Says, IsJson, Conforms;
    if At(schema, Items).Some? {
      assert Says(schema, "items", At(schema, Items).value);
    }
  }

  lemma RequiredFit(numeral: Numeral, schema: Json, members: seq<Member>)
    requires IsJson(schema) && IsNode(numeral, schema)
    ensures HasRequired(schema, members)
            <==> forall names, name :: Says(schema, "required", Array(names)) && String(name) in names
                                       ==> HasKey(members, name)
  {
    hide At, Says, IsJson, IsNode, IsListAt, ListAt, HasKey, IsReadAs, HasRequired;
    ChildWords(schema);
    if At(schema, Required).Some? {
      RequiredIsList(numeral, schema);
    }
    ListReads(schema, Required, "required");
    NoneRequired(schema);
    var names := ListAt(schema, Required);
    RequiredNames(schema, members);
    if IsListAt(schema, Required) {
      assert Says(schema, "required", Array(names));
    }
  }

  lemma RequiredNames(schema: Json, members: seq<Member>)
    ensures HasRequired(schema, members)
            <==> forall name :: String(name) in ListAt(schema, Required) ==> HasKey(members, name)
  {
    hide At, ListAt, HasKey;
    var names := ListAt(schema, Required);
    if HasRequired(schema, members) {
      forall name | String(name) in names
        ensures HasKey(members, name)
      {
        var i :| 0 <= i < |names| && names[i] == String(name);
      }
    } else {
      var i :| 0 <= i < |names| && names[i].String? && !HasKey(members, names[i].chars);
      assert String(names[i].chars) in names;
    }
  }

  lemma RequiredIsList(numeral: Numeral, schema: Json)
    requires IsNode(numeral, schema) && At(schema, Required).Some?
    ensures IsListAt(schema, Required) && At(schema, Required) == Some(Array(ListAt(schema, Required)))
  {
    hide At, Count, Bound, HasSupportedKeys, TypeOf;
  }

  lemma NoneRequired(schema: Json)
    ensures !IsListAt(schema, Required) ==> ListAt(schema, Required) == []
  {
    hide At;
  }

  lemma MemberFits(numeral: Numeral, schema: Json, member: Member)
    requires IsJson(schema) && IsNode(numeral, schema)
    ensures MemberConforms(numeral, schema, member) <==> FitsMember(numeral, schema, member)
  {
    hide At, Says, IsJson, IsNode, Conforms, Describes, GetIn;
    DescribedIs(numeral, schema, member.key);
    ClosedIs(schema);
    hide IsClosed;
  }

  lemma ClosedIs(schema: Json)
    requires IsJson(schema)
    ensures IsClosed(schema) <==> Says(schema, "additionalProperties", Boolean(false))
  {
    ChildWords(schema);
    hide At, Says, IsJson;
  }

  lemma MembersFit(numeral: Numeral, schema: Json, value: Json)
    requires IsJson(schema) && IsNode(numeral, schema) && value.Object?
    ensures && HasRequired(schema, value.members)
            && (forall i :: 0 <= i < |value.members| ==> MemberConforms(numeral, schema, value.members[i]))
            <==> FitsMembers(numeral, schema, value)
  {
    hide Says, IsJson, IsNode, MemberConforms, HasRequired, FitsMember;
    RequiredFit(numeral, schema, value.members);
    forall i | 0 <= i < |value.members|
      ensures MemberConforms(numeral, schema, value.members[i]) <==> FitsMember(numeral, schema, value.members[i])
    {
      MemberFits(numeral, schema, value.members[i]);
    }
  }

  /** What an accepted schema asks of a value, said by what is written in it. */
  lemma ConformsInWords(numeral: Numeral, schema: Json, value: Json)
    requires IsJson(schema) && IsSchema(numeral, schema)
    ensures Conforms(numeral, schema, value) <==>
            && FitsType(numeral, schema, value) && FitsLimits(numeral, schema, value)
            && FitsConstants(schema, value) && FitsCombined(numeral, schema, value)
            && FitsItems(numeral, schema, value) && FitsMembers(numeral, schema, value)
  {
    hide At, ListAt, IsListAt, IsJson, IsNode, MatchesType, TypeOf, IsWithinLimits, HasRequired, MemberConforms,
         FitsType, FitsLimits, FitsConstants, FitsCombined, FitsItems, AllBelow, IsSchema, HasSupportedLimits;
    SchemaIsNode(numeral, schema);
    TypeFits(numeral, schema, value);
    LimitsFit(numeral, schema, value);
    ConstantsFit(numeral, schema, value);
    CombinedFit(numeral, schema, value);
    ItemsFit(numeral, schema, value);
    if value.Object? {
      MembersFit(numeral, schema, value);
    }
  }

  lemma SchemaIsNode(numeral: Numeral, schema: Json)
    requires IsSchema(numeral, schema)
    ensures IsNode(numeral, schema) && HasSupportedLimits(numeral, schema) && TypeOf(schema).Some?
  {
    hide At, ListAt, IsListAt, TypeOf, HasSupportedKeys, HasSupportedLimits;
  }

  /** So no problem is found with a value exactly when it fits; of its type, among other things. */
  lemma MatchedFits(numeral: Numeral, schema: Json, value: Json, path: seq<Step>)
    requires IsJson(schema) && IsSchema(numeral, schema) && IsJson(value)
    requires MatchSchema(numeral, schema, value, path).None?
    ensures FitsType(numeral, schema, value) && FitsLimits(numeral, schema, value) && FitsConstants(schema, value)
  {
    hide *;
    JsonHasTokens(schema);
    JsonHasTokens(value);
    MatchDecides(numeral, schema, value, path);
    ConformsInWords(numeral, schema, value);
  }

  /** The schema that has a type and nothing else. */
  function TypeAlone(word: string): Json {
    Object([Member(Ascii("type"), String(Ascii(word)))])
  }

  ghost predicate IsTypeWord(word: string) {
    word in ["object", "array", "string", "number", "integer", "boolean", "null"]
  }

  lemma AsciiLength(s: string)
    ensures |Ascii(s)| == |s|
  {
  }

  lemma OnlyTypeIsType(k: Keyword)
    ensures Name(k) == Ascii("type") <==> k == Type
  {
    hide Ascii;
    if k == Enum {
      AsciiAt("type", 0);
      AsciiAt("enum", 0);
    } else if k != Type {
      AsciiLength("type");
      AsciiLength(Word(k));
    }
  }

  lemma TypeAloneReads(word: string, k: Keyword)
    ensures IsJson(TypeAlone(word))
    ensures At(TypeAlone(word), k) == if k == Type then Some(String(Ascii(word))) else None
  {
    OnlyTypeIsType(k);
    hide Ascii, Name;
  }

  lemma TypeAloneIsSchema(numeral: Numeral, word: string)
    requires IsTypeWord(word)
    ensures ValidateSchemaNode(numeral, TypeAlone(word), 0, false)
    ensures ValidateSchemaNode(numeral, TypeAlone(word), 0, true) <==> word == "object"
  {
    hide Ascii, Name, TypeAlone, At, IsTypeWord, TypeOf, Says, HasSupportedKeys, IsJson, Count, Bound, NamesType;
    var schema := TypeAlone(word);
    TypeAloneIsNamed(word);
    TypeIsNamed(schema);
    forall k
      ensures At(schema, k) == if k == Type then Some(String(Ascii(word))) else None
    {
      TypeAloneReads(word, k);
    }
  }

  lemma TypeAloneSays(word: string, other: string)
    ensures Says(TypeAlone(word), "type", String(Ascii(other))) <==> Ascii(word) == Ascii(other)
  {
    hide Ascii;
    var schema := TypeAlone(word);
    assert schema.members[0] == Member(Ascii("type"), String(Ascii(word)));
  }

  lemma TypeAloneIsNamed(word: string)
    requires IsTypeWord(word)
    ensures NamesType(TypeAlone(word)) && HasSupportedKeys(TypeAlone(word)) && IsJson(TypeAlone(word))
    ensures Says(TypeAlone(word), "type", String(Ascii("object"))) <==> word == "object"
  {
    hide Ascii, Says;
    FirstLetters();
    TypeAloneSays(word, word);
    TypeAloneSays(word, "object");
    TypeAloneReads(word, Type);
    assert Name(Type) == Ascii("type");
  }

  ghost predicate HasType(numeral: Numeral, word: string, value: Json) {
    && (word == "object" ==> value.Object?) && (word == "array" ==> value.Array?)
    && (word == "string" ==> value.String?) && (word == "number" ==> value.Number?)
    && (word == "integer" ==> value.Number? && IsSafeInteger(numeral(value.token)))
    && (word == "boolean" ==> value.Boolean?) && (word == "null" ==> value.Null?)
  }

  lemma TypeAloneFits(numeral: Numeral, word: string, value: Json)
    requires IsTypeWord(word)
    ensures FitsType(numeral, TypeAlone(word), value) <==> HasType(numeral, word, value)
  {
    hide Ascii, Says, TypeAlone, IsSafeInteger;
    FirstLetters();
    TypeAloneSays(word, "object");
    TypeAloneSays(word, "array");
    TypeAloneSays(word, "string");
    TypeAloneSays(word, "number");
    TypeAloneSays(word, "integer");
    TypeAloneSays(word, "boolean");
    TypeAloneSays(word, "null");
  }

  /** The schema has nothing but a type. */
  ghost predicate HasTypeOnly(schema: Json) {
    forall k: Keyword :: k != Type ==> At(schema, k) == None
  }

  lemma TypeAloneHasTypeOnly(word: string)
    ensures HasTypeOnly(TypeAlone(word))
  {
    hide At, TypeAlone, Ascii;
    forall k: Keyword | k != Type
      ensures At(TypeAlone(word), k) == None
    {
      TypeAloneReads(word, k);
    }
  }

  lemma TypeOnlyHasNoLists(schema: Json)
    requires HasTypeOnly(schema)
    ensures ListAt(schema, AllOf) == [] && ListAt(schema, Required) == []
    ensures !IsListAt(schema, Enum) && !IsListAt(schema, AnyOf) && !IsListAt(schema, OneOf)
  {
    hide At;
  }

  lemma TypeOnlyHasNoLimits(numeral: Numeral, schema: Json, value: Json)
    requires HasTypeOnly(schema)
    ensures IsWithinLimits(numeral, schema, value)
  {
    hide At;
  }

  lemma TypeOnlyShape(numeral: Numeral, schema: Json, value: Json)
    requires HasTypeOnly(schema) && TypeOf(schema).Some?
    ensures ConformsAsAWhole(numeral, schema, value) <==> MatchesType(numeral, TypeOf(schema).value, value)
  {
    hide At, ListAt, IsListAt, TypeOf, MatchesType, Conforms, OneConforms, OnlyOneConforms;
    TypeOnlyHasNoLists(schema);
  }

  lemma TypeOnlyConforms(numeral: Numeral, schema: Json, value: Json)
    requires HasTypeOnly(schema) && TypeOf(schema).Some?
    ensures Conforms(numeral, schema, value) <==> MatchesType(numeral, TypeOf(schema).value, value)
  {
    hide At, ListAt, IsListAt, TypeOf, MatchesType, ConformsAsAWhole, IsWithinLimits;
    TypeOnlyHasNoLists(schema);
    TypeOnlyHasNoLimits(numeral, schema, value);
    TypeOnlyShape(numeral, schema, value);
  }

  /** Such a schema accepts every value of the type, and no other. */
  lemma TypeAloneDecides(numeral: Numeral, word: string, value: Json, path: seq<Step>)
    requires IsTypeWord(word) && IsJson(value)
    ensures IsSchema(numeral, TypeAlone(word))
    ensures MatchSchema(numeral, TypeAlone(word), value, path).None? <==> HasType(numeral, word, value)
  {
    hide *;
    TypeAloneIsSchema(numeral, word);
    TopIsSchema(numeral, TypeAlone(word), 0, false);
    TypeAloneIsNamed(word);
    JsonHasTokens(TypeAlone(word));
    JsonHasTokens(value);
    MatchDecides(numeral, TypeAlone(word), value, path);
    TypeIsNamed(TypeAlone(word));
    TypeAloneHasTypeOnly(word);
    TypeOnlyConforms(numeral, TypeAlone(word), value);
    TypeFits(numeral, TypeAlone(word), value);
    TypeAloneFits(numeral, word, value);
  }

  // ---------- Supported schemas ----------

  /** One of the words a schema may be written with. */
  ghost predicate IsWord(key: Text) {
    || key == Ascii("type") || key == Ascii("title") || key == Ascii("description") || key == Ascii("default")
    || key == Ascii("properties") || key == Ascii("required") || key == Ascii("additionalProperties")
    || key == Ascii("items") || key == Ascii("minItems") || key == Ascii("maxItems")
    || key == Ascii("minLength") || key == Ascii("maxLength") || key == Ascii("minimum") || key == Ascii("maximum")
    || key == Ascii("exclusiveMinimum") || key == Ascii("exclusiveMaximum")
    || key == Ascii("minProperties") || key == Ascii("maxProperties") || key == Ascii("enum")
    || key == Ascii("const") || key == Ascii("anyOf") || key == Ascii("oneOf") || key == Ascii("allOf")
  }

  lemma KeywordsAreWords(key: Text)
    ensures IsKeyword(key) <==> IsWord(key)
  {
    hide Ascii;
    if IsKeyword(key) {
      var k: Keyword :| Name(k) == key;
      KeywordIsWord(k);
    }
    if IsWord(key) {
      WordIsKeyword(key);
    }
  }

  lemma KeywordIsWord(k: Keyword)
    ensures IsWord(Name(k))
  {
    hide Ascii;
  }

  lemma WordIsKeyword(key: Text)
    requires IsWord(key)
    ensures IsKeyword(key)
  {
    hide Ascii;
    var k: Keyword :=
      if key == Ascii("type") then Type else if key == Ascii("title") then Title
      else if key == Ascii("description") then Description else if key == Ascii("default") then Default
      else if key == Ascii("properties") then Properties else if key == Ascii("required") then Required
      else if key == Ascii("additionalProperties") then AdditionalProperties
      else if key == Ascii("items") then Items else if key == Ascii("minItems") then MinItems
      else if key == Ascii("maxItems") then MaxItems else if key == Ascii("minLength") then MinLength
      else if key == Ascii("maxLength") then MaxLength else if key == Ascii("minimum") then Minimum
      else if key == Ascii("maximum") then Maximum else if key == Ascii("exclusiveMinimum") then ExclusiveMinimum
      else if key == Ascii("exclusiveMaximum") then ExclusiveMaximum
      else if key == Ascii("minProperties") then MinProperties
      else if key == Ascii("maxProperties") then MaxProperties
      else if key == Ascii("enum") then Enum else if key == Ascii("const") then Const
      else if key == Ascii("anyOf") then AnyOf else if key == Ascii("oneOf") then OneOf else AllOf;
    assert Name(k) == key;
  }

  /** A number that counts something. */
  ghost predicate IsCounted(numeral: Numeral, v: Json) {
    v.Number? && IsSafeInteger(numeral(v.token)) && numeral(v.token) >= 0.0
  }

  ghost predicate SaysCount(numeral: Numeral, schema: Json, word: string) {
    forall v :: Says(schema, word, v) ==> IsCounted(numeral, v)
  }

  ghost predicate SaysNumber(schema: Json, word: string) {
    forall v :: Says(schema, word, v) ==> v.Number?
  }

  ghost predicate SaysText(schema: Json, word: string) {
    forall v :: Says(schema, word, v) ==> v.String?
  }

  /** Between one and so many schemas. */
  ghost predicate SaysSome(schema: Json, word: string, most: nat) {
    forall v :: Says(schema, word, v) ==> v.Array? && 1 <= |v.items| <= most
  }

  /** At most 128 different names of at most 256 units each, none empty. */
  ghost predicate AreNames(v: Json) {
    && v.Array? && |v.items| <= 128
    && (forall i, j :: 0 <= i < j < |v.items| ==> v.items[i] != v.items[j])
    && forall i :: 0 <= i < |v.items| ==> v.items[i].String? && 1 <= |v.items[i].chars| <= 256
  }

  /** What is asked of one node of a schema, said by what is written in it. */
  ghost predicate IsWellPut(numeral: Numeral, schema: Json) {
    && schema.Object? && (forall i :: 0 <= i < |schema.members| ==> IsWord(schema.members[i].key))
    && NamesType(schema)
    && SaysCount(numeral, schema, "minItems") && SaysCount(numeral, schema, "maxItems")
    && SaysCount(numeral, schema, "minLength") && SaysCount(numeral, schema, "maxLength")
    && SaysCount(numeral, schema, "minProperties") && SaysCount(numeral, schema, "maxProperties")
    && SaysNumber(schema, "minimum") && SaysNumber(schema, "maximum")
    && SaysNumber(schema, "exclusiveMinimum") && SaysNumber(schema, "exclusiveMaximum")
    && (forall v :: Says(schema, "required", v) ==> AreNames(v))
    && (forall v :: Says(schema, "additionalProperties", v) ==> v.Boolean?)
    && SaysSome(schema, "enum", 128) && SaysText(schema, "title") && SaysText(schema, "description")
    && (forall v :: Says(schema, "properties", v) ==> v.Object? && |v.members| <= 128)
    && SaysSome(schema, "anyOf", 16) && SaysSome(schema, "oneOf", 16) && SaysSome(schema, "allOf", 16)
  }

  lemma CountSays(numeral: Numeral, schema: Json, k: Keyword, word: string)
    requires IsReadAs(schema, k, word)
    ensures (At(schema, k).Some? ==> Count(numeral, schema, k).Some?) <==> SaysCount(numeral, schema, word)
  {
    hide Says, At, SafeInteger, IsSafeInteger;
    if At(schema, k).Some? {
      SafeIntegers(numeral, At(schema, k).value);
    }
  }

  lemma BoundSays(numeral: Numeral, schema: Json, k: Keyword, word: string)
    requires IsReadAs(schema, k, word)
    ensures (At(schema, k).Some? ==> Bound(numeral, schema, k).Some?) <==> SaysNumber(schema, word)
  {
    hide Says, At;
  }

  lemma ListSays(schema: Json, k: Keyword, word: string, most: nat)
    requires IsReadAs(schema, k, word)
    ensures (At(schema, k).Some? ==> IsListAt(schema, k) && 0 < |ListAt(schema, k)| <= most)
            <==> SaysSome(schema, word, most)
  {
    hide Says, At;
  }

  lemma TextSays(schema: Json, k: Keyword, word: string)
    requires IsReadAs(schema, k, word)
    ensures (At(schema, k).Some? ==> At(schema, k).value.String?) <==> SaysText(schema, word)
  {
    hide Says, At;
  }

  lemma CountsSay(numeral: Numeral, schema: Json)
    requires IsJson(schema)
    ensures (forall k | k in {MinItems, MaxItems, MinLength, MaxLength, MinProperties, MaxProperties} ::
               At(schema, k).Some? ==> Count(numeral, schema, k).Some?)
            <==>
            && SaysCount(numeral, schema, "minItems") && SaysCount(numeral, schema, "maxItems")
            && SaysCount(numeral, schema, "minLength") && SaysCount(numeral, schema, "maxLength")
            && SaysCount(numeral, schema, "minProperties") && SaysCount(numeral, schema, "maxProperties")
  {
    hide IsJson, IsReadAs, At, Count, SaysCount;
    SizeWords(schema);
    CountSays(numeral, schema, MinItems, "minItems");
    CountSays(numeral, schema, MaxItems, "maxItems");
    CountSays(numeral, schema, MinLength, "minLength");
    CountSays(numeral, schema, MaxLength, "maxLength");
    CountSays(numeral, schema, MinProperties, "minProperties");
    CountSays(numeral, schema, MaxProperties, "maxProperties");
  }

  lemma AllBoundsSay(numeral: Numeral, schema: Json)
    requires IsJson(schema)
    ensures (forall k | k in {Minimum, Maximum, ExclusiveMinimum, ExclusiveMaximum} ::
               At(schema, k).Some? ==> Bound(numeral, schema, k).Some?)
            <==>
            && SaysNumber(schema, "minimum") && SaysNumber(schema, "maximum")
            && SaysNumber(schema, "exclusiveMinimum") && SaysNumber(schema, "exclusiveMaximum")
  {
    hide IsJson, IsReadAs, At, Bound, SaysNumber;
    BoundWords(schema);
    BoundSays(numeral, schema, Minimum, "minimum");
    BoundSays(numeral, schema, Maximum, "maximum");
    BoundSays(numeral, schema, ExclusiveMinimum, "exclusiveMinimum");
    BoundSays(numeral, schema, ExclusiveMaximum, "exclusiveMaximum");
  }

  lemma ListsSay(schema: Json)
    requires IsJson(schema)
    ensures (forall k :: k in {AnyOf, OneOf, AllOf} && At(schema, k).Some?
               ==> IsListAt(schema, k) && 0 < |ListAt(schema, k)| <= 16)
            <==> SaysSome(schema, "anyOf", 16) && SaysSome(schema, "oneOf", 16) && SaysSome(schema, "allOf", 16)
    ensures (At(schema, Enum).Some? ==> IsListAt(schema, Enum) && 0 < |ListAt(schema, Enum)| <= 128)
            <==> SaysSome(schema, "enum", 128)
  {
    hide IsJson, IsReadAs, At, IsListAt, ListAt, SaysSome;
    ShapeWords(schema);
    ListSays(schema, AnyOf, "anyOf", 16);
    ListSays(schema, OneOf, "oneOf", 16);
    ListSays(schema, AllOf, "allOf", 16);
    ListSays(schema, Enum, "enum", 128);
  }

  lemma RestSays(schema: Json)
    requires IsJson(schema)
    ensures (At(schema, Required).Some? ==> IsRequiredList(At(schema, Required).value))
            <==> forall v :: Says(schema, "required", v) ==> AreNames(v)
    ensures (At(schema, AdditionalProperties).Some? ==> At(schema, AdditionalProperties).value.Boolean?)
            <==> forall v :: Says(schema, "additionalProperties", v) ==> v.Boolean?
    ensures (At(schema, Properties).Some? ==>
               At(schema, Properties).value.Object? && |At(schema, Properties).value.members| <= 128)
            <==> forall v :: Says(schema, "properties", v) ==> v.Object? && |v.members| <= 128
    ensures (At(schema, Title).Some? ==> At(schema, Title).value.String?) <==> SaysText(schema, "title")
    ensures (At(schema, Description).Some? ==> At(schema, Description).value.String?)
            <==> SaysText(schema, "description")
  {
    hide IsJson, At, Says, SaysText, IsRequiredList, AreNames;
    ChildWords(schema);
    NoteWords(schema);
    TextSays(schema, Title, "title");
    TextSays(schema, Description, "description");
    NamesAreRequired();
  }

  lemma NamesAreRequired()
    ensures forall v :: IsRequiredList(v) <==> AreNames(v)
  {
  }

  /** A node is well-formed exactly when it is well put: the keywords and the limits 128, 256 and 16. */
  lemma NodeInWords(numeral: Numeral, schema: Json)
    requires IsJson(schema)
    ensures IsNode(numeral, schema) <==> IsWellPut(numeral, schema)
  {
    hide IsJson, At, Count, Bound, IsListAt, ListAt, Says, SaysCount, SaysNumber, SaysSome, SaysText, TypeOf,
         IsRequiredList, AreNames, IsWord, IsKeyword, NamesType;
    TypeIsNamed(schema);
    CountsSay(numeral, schema);
    AllBoundsSay(numeral, schema);
    ListsSay(schema);
    RestSays(schema);
    forall key
      ensures IsKeyword(key) <==> IsWord(key)
    {
      KeywordsAreWords(key);
    }
  }

  ghost predicate IsAmong(schema: Json, word: string, child: Json) {
    exists list :: Says(schema, word, Array(list)) && child in list
  }

  lemma AmongIs(schema: Json, k: Keyword, word: string, child: Json)
    requires IsReadAs(schema, k, word)
    ensures child in ListAt(schema, k) <==> IsAmong(schema, word, child)
  {
    hide At, Says;
    if child in ListAt(schema, k) {
      assert Says(schema, word, Array(ListAt(schema, k)));
    }
  }

  lemma PropertyIs(schema: Json, child: Json)
    requires IsReadAs(schema, Properties, "properties")
    ensures (exists key :: Describes(schema, key, child))
            <==> && At(schema, Properties).Some? && At(schema, Properties).value.Object?
                 && exists i | 0 <= i < |At(schema, Properties).value.members| ::
                      At(schema, Properties).value.members[i].value == child
  {
    hide At, Says;
    if key :| Describes(schema, key, child) {
      var ps :| Says(schema, "properties", Object(ps)) && Member(key, child) in ps;
      var i :| 0 <= i < |ps| && ps[i] == Member(key, child);
    }
    if At(schema, Properties).Some? && At(schema, Properties).value.Object? {
      var ps := At(schema, Properties).value.members;
      if i :| 0 <= i < |ps| && ps[i].value == child {
        assert Member(ps[i].key, child) in ps;
        assert Describes(schema, ps[i].key, child);
      }
    }
  }

  /** The nodes below a schema node: its properties, its items and its combined schemas. */
  lemma BelowInWords(schema: Json, child: Json)
    requires IsJson(schema)
    ensures IsBelow(child, schema) <==>
            || (exists key :: Describes(schema, key, child)) || Says(schema, "items", child)
            || IsAmong(schema, "anyOf", child) || IsAmong(schema, "oneOf", child) || IsAmong(schema, "allOf", child)
  {
    hide IsJson, At, ListAt, Says, IsAmong, Describes;
    ShapeWords(schema);
    ChildWords(schema);
    AmongIs(schema, AnyOf, "anyOf", child);
    AmongIs(schema, OneOf, "oneOf", child);
    AmongIs(schema, AllOf, "allOf", child);
    PropertyIs(schema, child);
  }

  /** A tool's input is an object; the schema and every node below it within twelve steps is well put. */
  lemma ToolSchemasAskForObjects(numeral: Numeral, schema: Json)
    requires IsJson(schema)
    ensures ValidateSchemaNode(numeral, schema, 0, true) <==>
            && Says(schema, "type", String(Ascii("object")))
            && forall chain :: IsWayDown(schema, chain)
                               ==> |chain| <= 13 && IsWellPut(numeral, chain[|chain| - 1])
  {
    hide IsWellPut, IsBelow, IsNode, ValidateSchemaNode, Says, TypeOf;
    TopIsObject(numeral, schema);
    AcceptedMeansEveryNode(numeral, schema, 0);
    TypeIsNamed(schema);
    forall chain | IsWayDown(schema, chain)
      ensures IsNode(numeral, chain[|chain| - 1]) <==> IsWellPut(numeral, chain[|chain| - 1])
    {
      WayIsJson(schema, chain);
      NodeInWords(numeral, chain[|chain| - 1]);
    }
  }

  lemma TopIsObject(numeral: Numeral, schema: Json)
    ensures ValidateSchemaNode(numeral, schema, 0, true)
            <==> ValidateSchemaNode(numeral, schema, 0, false) && TypeOf(schema) == Some(ObjectType)
  {
    hide TypeOf, IsNode, At, ListAt;
  }

  lemma {:induction false} WayIsJson(schema: Json, chain: seq<Json>)
    requires IsJson(schema) && IsWayDown(schema, chain)
    ensures IsJson(chain[|chain| - 1])
    decreases |chain|
  {
    hide IsJson, IsBelow;
    if |chain| > 1 {
      var shorter := chain[..|chain| - 1];
      WayIsJson(schema, shorter);
      assert IsBelow(chain[|chain| - 1], chain[|chain| - 2]);
      BelowIsJson(chain[|chain| - 2], chain[|chain| - 1]);
    }
  }

  lemma BelowIsJson(schema: Json, child: Json)
    requires IsJson(schema) && IsBelow(child, schema)
    ensures IsJson(child)
  {
    hide At;
    forall k | At(schema, k).Some?
      ensures IsJson(At(schema, k).value)
    {
      AtIsJson(schema, k);
    }
  }
}
