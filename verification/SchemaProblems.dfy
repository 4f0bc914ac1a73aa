/**
 * A problem that the matcher reports is real: its path leads from the input to a value, and its
 * reason is true of that value and a schema node that applies to it.
 */
module SchemaProblems {
  import opened Prelude
  import opened CanonicalJson
  import opened PlainJson
  import opened ToolSchema
  import opened SchemaWords

  ghost predicate IsUnder(numeral: Numeral, schema: Json, word: string, n: real) {
    exists t :: Says(schema, word, Number(t)) && n < numeral(t)
  }

  ghost predicate IsOver(numeral: Numeral, schema: Json, word: string, n: real) {
    exists t :: Says(schema, word, Number(t)) && numeral(t) < n
  }

  /** The number is the one written under the word. */
  ghost predicate IsAtBound(numeral: Numeral, schema: Json, word: string, n: real) {
    exists t :: Says(schema, word, Number(t)) && numeral(t) == n
  }

  ghost predicate FailsSize(numeral: Numeral, schema: Json, value: Json, reason: Reason) {
    match reason
    case TooShort => value.String? && IsUnder(numeral, schema, "minLength", |value.chars| as real)
    case TooLong => value.String? && IsOver(numeral, schema, "maxLength", |value.chars| as real)
    case TooFewItems => value.Array? && IsUnder(numeral, schema, "minItems", |value.items| as real)
    case TooManyItems => value.Array? && IsOver(numeral, schema, "maxItems", |value.items| as real)
    case TooFewProperties => value.Object? && IsUnder(numeral, schema, "minProperties", |value.members| as real)
    case TooManyProperties => value.Object? && IsOver(numeral, schema, "maxProperties", |value.members| as real)
    case BelowMinimum => value.Number? && IsUnder(numeral, schema, "minimum", numeral(value.token))
    case AboveMaximum => value.Number? && IsOver(numeral, schema, "maximum", numeral(value.token))
    case BelowExclusiveMinimum =>
      && value.Number?
      && var n := numeral(value.token);
         IsUnder(numeral, schema, "exclusiveMinimum", n) || IsAtBound(numeral, schema, "exclusiveMinimum", n)
    case AboveExclusiveMaximum =>
      && value.Number?
      && var n := numeral(value.token);
         IsOver(numeral, schema, "exclusiveMaximum", n) || IsAtBound(numeral, schema, "exclusiveMaximum", n)
    case _ => false
  }

  ghost predicate FailsShape(numeral: Numeral, schema: Json, value: Json, reason: Reason) {
    match reason
    case WrongType => !FitsType(numeral, schema, value)
    case NotConst => exists v :: Says(schema, "const", v) && v != value
    case NotAllowedValue => exists list :: Says(schema, "enum", Array(list)) && value !in list
    case NoAllowedShape => exists list :: Says(schema, "anyOf", Array(list)) && !FitsSome(numeral, list, value)
    case NotExactlyOneShape => exists list :: Says(schema, "oneOf", Array(list)) && !FitsOne(numeral, list, value)
    case _ => false
  }

  ghost predicate LacksRequired(schema: Json, value: Json, reason: Reason) {
    && value.Object? && reason.IsRequired? && !HasKey(value.members, reason.name)
    && exists names :: Says(schema, "required", Array(names)) && String(reason.name) in names
  }

  /** The reason is true of the value and this very node. */
  ghost predicate Fails(numeral: Numeral, schema: Json, value: Json, reason: Reason) {
    || FailsShape(numeral, schema, value, reason) || FailsSize(numeral, schema, value, reason)
    || LacksRequired(schema, value, reason)
  }

  /** The schema is closed and says nothing of that key. */
  ghost predicate IsForbidden(schema: Json, key: Text) {
    Says(schema, "additionalProperties", Boolean(false)) && forall child :: !Describes(schema, key, child)
  }

  /** The way down from the value ends where the reason is true. */
  ghost predicate Explains(numeral: Numeral, schema: Json, value: Json, way: seq<Step>, reason: Reason)
    decreases schema
  {
    || (way == [] && Fails(numeral, schema, value, reason))
    || (exists child :: child < schema && IsAmong(schema, "allOf", child)
                        && Explains(numeral, child, value, way, reason))
    || (way != [] && match way[0]
        case Index(i) =>
          && value.Array? && i < |value.items|
          && exists child :: child < schema && Says(schema, "items", child)
                             && Explains(numeral, child, value.items[i], way[1..], reason)
        case Key(key) =>
          && value.Object?
          && ((way == [Key(key)] && reason == NotAllowed && HasKey(value.members, key) && IsForbidden(schema, key))
              || exists child, v :: child < schema && Describes(schema, key, child) && Member(key, v) in value.members
                                    && Explains(numeral, child, v, way[1..], reason)))
  }

  /** What the matcher reports, if anything, goes on from the path it was given. */
  ghost predicate IsReal(numeral: Numeral, schema: Json, value: Json, path: seq<Step>, found: Option<Problem>) {
    found.Some? ==>
      && path <= found.value.path
      && Explains(numeral, schema, value, found.value.path[|path|..], found.value.reason)
  }

  lemma HereIsReal(numeral: Numeral, schema: Json, value: Json, path: seq<Step>, reason: Reason)
    requires Fails(numeral, schema, value, reason)
    ensures IsReal(numeral, schema, value, path, Some(Problem(path, reason)))
  {
    hide Fails;
  }

  lemma LengthFails(numeral: Numeral, schema: Json, least: Keyword, most: Keyword, few: string, many: string, n: nat)
    requires IsReadAs(schema, least, few) && IsReadAs(schema, most, many)
    requires At(schema, least).Some? ==> Count(numeral, schema, least).Some?
    requires At(schema, most).Some? ==> Count(numeral, schema, most).Some?
    ensures TooLittle(Count(numeral, schema, least), n) ==> IsUnder(numeral, schema, few, n as real)
    ensures TooMuch(Count(numeral, schema, most), n) ==> IsOver(numeral, schema, many, n as real)
  {
    hide At, Says, Count, IsReadAs;
    CountReads(numeral, schema, least, few);
    CountReads(numeral, schema, most, many);
  }

  lemma BoundFails(numeral: Numeral, schema: Json, k: Keyword, word: string, n: real)
    requires IsReadAs(schema, k, word) && Bound(numeral, schema, k).Some?
    ensures n < Bound(numeral, schema, k).value ==> IsUnder(numeral, schema, word, n)
    ensures n > Bound(numeral, schema, k).value ==> IsOver(numeral, schema, word, n)
    ensures n == Bound(numeral, schema, k).value ==> IsAtBound(numeral, schema, word, n)
  {
    hide At, Says, Bound, IsReadAs;
    BoundReads(numeral, schema, k, word);
  }

  lemma NumberFails(numeral: Numeral, schema: Json, token: Text)
    requires IsJson(schema)
    ensures var found := NumberProblem(numeral, schema, numeral(token));
            found.Some? ==> FailsSize(numeral, schema, Number(token), found.value)
  {
    hide At, Says, Bound, IsReadAs, IsJson, IsUnder, IsOver, IsAtBound;
    BoundWords(schema);
    var x := numeral(token);
    if Bound(numeral, schema, Minimum).Some? { BoundFails(numeral, schema, Minimum, "minimum", x); }
    if Bound(numeral, schema, Maximum).Some? { BoundFails(numeral, schema, Maximum, "maximum", x); }
    if Bound(numeral, schema, ExclusiveMinimum).Some? {
      BoundFails(numeral, schema, ExclusiveMinimum, "exclusiveMinimum", x);
    }
    if Bound(numeral, schema, ExclusiveMaximum).Some? {
      BoundFails(numeral, schema, ExclusiveMaximum, "exclusiveMaximum", x);
    }
  }

  lemma SizeFails(numeral: Numeral, schema: Json, value: Json)
    requires IsJson(schema) && HasSupportedLimits(numeral, schema)
    ensures SizeProblem(numeral, schema, value).Some?
            ==> FailsSize(numeral, schema, value, SizeProblem(numeral, schema, value).value)
  {
    hide At, Count, Bound, IsListAt, ListAt, IsReadAs, IsRequiredList, IsUnder, IsOver, NumberProblem, TooLittle,
         TooMuch, Says, IsJson;
    SizeWords(schema);
    match value {
      case Number(token) => NumberFails(numeral, schema, token);
      case String(chars) => LengthFails(numeral, schema, MinLength, MaxLength, "minLength", "maxLength", |chars|);
      case Array(items) => LengthFails(numeral, schema, MinItems, MaxItems, "minItems", "maxItems", |items|);
      case Object(members) =>
        LengthFails(numeral, schema, MinProperties, MaxProperties, "minProperties", "maxProperties", |members|);
      case _ =>
    }
  }

  lemma MissingFails(numeral: Numeral, schema: Json, members: seq<Member>)
    requires IsJson(schema) && IsNode(numeral, schema)
    ensures var missing := FirstMissing(ListAt(schema, Required), members);
            missing.Some? ==> LacksRequired(schema, Object(members), IsRequired(missing.value))
  {
    hide At, Says, IsJson, IsNode, IsListAt, ListAt, HasKey, IsReadAs, FirstMissing;
    ChildWords(schema);
    if At(schema, Required).Some? {
      RequiredIsList(numeral, schema);
    }
    ListReads(schema, Required, "required");
    NoneRequired(schema);
    var names := ListAt(schema, Required);
    MissingIsListed(names, members);
    if FirstMissing(names, members).Some? {
      assert Says(schema, "required", Array(names));
    }
  }

  lemma {:induction false} MissingIsListed(names: seq<Json>, members: seq<Member>)
    ensures var missing := FirstMissing(names, members);
            missing.Some? ==> String(missing.value) in names && !HasKey(members, missing.value)
  {
    if names != [] {
      MissingIsListed(names[1..], members);
      if names[0].String? {
        assert Get(members, names[0].chars).Some? <==> HasKey(members, names[0].chars);
      }
    }
  }

  // ---------- Shapes ----------

  lemma TypeIsReal(numeral: Numeral, schema: Json, value: Json)
    requires IsJson(schema) && TypeOf(schema).Some? && !MatchesType(numeral, TypeOf(schema).value, value)
    ensures Fails(numeral, schema, value, WrongType)
  {
    hide FitsType, IsJson, MatchesType, TypeOf;
    TypeFits(numeral, schema, value);
  }

  lemma ConstantIsReal(numeral: Numeral, schema: Json, value: Json)
    requires IsJson(schema) && HasTokens(value)
    requires At(schema, Const).Some? && !JsonEqual(value, At(schema, Const).value)
    ensures Fails(numeral, schema, value, NotConst)
  {
    hide At, Says, IsJson, HasTokens, JsonEqual;
    JsonHasTokens(schema);
    ConstDecides(schema, value);
    ShapeWords(schema);
    assert Says(schema, "const", At(schema, Const).value);
  }

  lemma EnumIsReal(numeral: Numeral, schema: Json, value: Json)
    requires IsJson(schema) && IsNode(numeral, schema) && HasTokens(value)
    requires IsListAt(schema, Enum) && !AnyEqual(ListAt(schema, Enum), value)
    ensures Fails(numeral, schema, value, NotAllowedValue)
  {
    hide At, Says, IsJson, IsNode, HasTokens, AnyEqual, IsListAt, ListAt, IsReadAs;
    JsonHasTokens(schema);
    AnyEqualIsMembership(ListAt(schema, Enum), value);
    ListIsSaid(numeral, schema, Enum, "enum");
  }

  lemma ListIsSaid(numeral: Numeral, schema: Json, k: Keyword, word: string)
    requires IsJson(schema) && IsNode(numeral, schema) && IsListAt(schema, k)
    requires k in {Enum, AllOf, AnyOf, OneOf} && word == Word(k)
    ensures Says(schema, word, Array(ListAt(schema, k)))
  {
    hide At, Says, IsJson, IsNode, IsListAt, ListAt;
    ReadsAs(schema, k, word);
    ListsAreRead(numeral, schema);
    ListReads(schema, k, word);
  }

  lemma SomeIsReal(numeral: Numeral, schema: Json, value: Json)
    requires IsSchema(numeral, schema) && IsJson(schema) && HasTokens(value) && IsListAt(schema, AnyOf)
    ensures AllBelow(ListAt(schema, AnyOf), schema)
    ensures CountMatches(numeral, schema, ListAt(schema, AnyOf), value) == 0
            ==> Fails(numeral, schema, value, NoAllowedShape)
  {
    hide At, Says, IsJson, IsNode, HasTokens, IsListAt, ListAt, IsReadAs, AllBelow, Somewhere, Once, FitsSome, FitsEach,
         OneConforms, IsSchema;
    var list := ListAt(schema, AnyOf);
    JsonHasTokens(schema);
    SchemaIsNode(numeral, schema);
    ListedAreBelow(schema);
    CountDecides(numeral, schema, list, value);
    SomewhereIs(numeral, schema, list, value);
    CombinersFit(numeral, schema, list, value);
    ListIsSaid(numeral, schema, AnyOf, "anyOf");
  }

  lemma OneIsReal(numeral: Numeral, schema: Json, value: Json)
    requires IsSchema(numeral, schema) && IsJson(schema) && HasTokens(value) && IsListAt(schema, OneOf)
    ensures AllBelow(ListAt(schema, OneOf), schema)
    ensures CountMatches(numeral, schema, ListAt(schema, OneOf), value) != 1
            ==> Fails(numeral, schema, value, NotExactlyOneShape)
  {
    hide At, Says, IsJson, IsNode, HasTokens, IsListAt, ListAt, IsReadAs, AllBelow, Somewhere, Once, FitsOne, FitsEach,
         OnlyOneConforms, IsSchema;
    var list := ListAt(schema, OneOf);
    JsonHasTokens(schema);
    SchemaIsNode(numeral, schema);
    ListedAreBelow(schema);
    CountDecides(numeral, schema, list, value);
    OnceIs(numeral, schema, list, value);
    CombinersFit(numeral, schema, list, value);
    ListIsSaid(numeral, schema, OneOf, "oneOf");
  }

  // ---------- The way to the problem ----------

  lemma ChildIsReal(numeral: Numeral, schema: Json, child: Json, value: Json, path: seq<Step>, found: Option<Problem>)
    requires child < schema && IsAmong(schema, "allOf", child) && IsReal(numeral, child, value, path, found)
    ensures IsReal(numeral, schema, value, path, found)
  {
    hide IsAmong, Fails, Says, Describes, IsForbidden;
  }

  lemma LongerPath(path: seq<Step>, step: Step, longer: seq<Step>)
    requires path + [step] <= longer
    ensures path <= longer && |longer| > |path| && longer[|path|] == step
    ensures longer[|path|..][1..] == longer[|path| + 1..]
  {
    assert longer[|path|] == (path + [step])[|path|];
    assert longer[..|path|] == (path + [step])[..|path|] == path;
  }

  lemma ItemIsReal(numeral: Numeral, schema: Json, child: Json, items: seq<Json>, i: nat, path: seq<Step>,
                   found: Option<Problem>)
    requires child < schema && Says(schema, "items", child) && i < |items|
    requires IsReal(numeral, child, items[i], path + [Index(i)], found)
    ensures IsReal(numeral, schema, Array(items), path, found)
  {
    hide IsAmong, Fails, Says, Describes, IsForbidden;
    if found.Some? {
      LongerPath(path, Index(i), found.value.path);
    }
  }

  lemma MemberIsReal(numeral: Numeral, schema: Json, child: Json, members: seq<Member>, member: Member,
                     path: seq<Step>, found: Option<Problem>)
    requires child < schema && Describes(schema, member.key, child) && member in members
    requires IsReal(numeral, child, member.value, path + [Key(member.key)], found)
    ensures IsReal(numeral, schema, Object(members), path, found)
  {
    hide IsAmong, Fails, Says, Describes, IsForbidden;
    if found.Some? {
      LongerPath(path, Key(member.key), found.value.path);
    }
  }

  lemma ForbiddenIsReal(numeral: Numeral, schema: Json, members: seq<Member>, key: Text, path: seq<Step>)
    requires HasKey(members, key) && IsForbidden(schema, key)
    ensures IsReal(numeral, schema, Object(members), path, Some(Problem(path + [Key(key)], NotAllowed)))
  {
    hide IsAmong, Fails, Says, Describes, IsForbidden, HasKey;
    assert (path + [Key(key)])[|path|..] == [Key(key)];
  }

  /** Whatever the matcher reports is real. */
  lemma {:induction false} MatchIsReal(numeral: Numeral, schema: Json, value: Json, path: seq<Step>)
    requires IsSchema(numeral, schema) && IsJson(schema) && HasTokens(value)
    ensures IsReal(numeral, schema, value, path, MatchSchema(numeral, schema, value, path))
    decreases schema, 1, 0
  {
    hide IsSchema, IsJson, HasTokens, IsNode, ShapeProblem, IsReal, Fails, At, ListAt, TypeOf, HasSupportedLimits;
    SchemaIsNode(numeral, schema);
    ShapeIsReal(numeral, schema, value, path);
    SizeFails(numeral, schema, value);
    if ShapeProblem(numeral, schema, value, path).None? {
      if SizeProblem(numeral, schema, value).Some? {
        SizeIsReal(numeral, schema, value, path);
      } else if value.Array? && At(schema, Items).Some? {
        ItemsAreReal(numeral, schema, At(schema, Items).value, value.items, 0, path);
      } else if value.Object? {
        MissingFails(numeral, schema, value.members);
        if FirstMissing(ListAt(schema, Required), value.members).Some? {
          MissingIsReal(numeral, schema, value.members, path);
        } else {
          MembersHaveTokens(value);
          MembersAreReal(numeral, schema, value.members, value.members, path);
        }
      }
    }
  }

  lemma MembersHaveTokens(value: Json)
    requires HasTokens(value) && value.Object?
    ensures forall m :: m in value.members ==> HasTokens(m.value)
  {
  }

  lemma SizeIsReal(numeral: Numeral, schema: Json, value: Json, path: seq<Step>)
    requires SizeProblem(numeral, schema, value).Some?
    requires FailsSize(numeral, schema, value, SizeProblem(numeral, schema, value).value)
    ensures IsReal(numeral, schema, value, path, Some(Problem(path, SizeProblem(numeral, schema, value).value)))
  {
    hide SizeProblem, FailsSize, FailsShape, LacksRequired, IsReal;
    HereIsReal(numeral, schema, value, path, SizeProblem(numeral, schema, value).value);
  }

  lemma MissingIsReal(numeral: Numeral, schema: Json, members: seq<Member>, path: seq<Step>)
    requires FirstMissing(ListAt(schema, Required), members).Some?
    requires LacksRequired(schema, Object(members), IsRequired(FirstMissing(ListAt(schema, Required), members).value))
    ensures var name := FirstMissing(ListAt(schema, Required), members).value;
            IsReal(numeral, schema, Object(members), path, Some(Problem(path, IsRequired(name))))
  {
    hide FirstMissing, ListAt, FailsSize, FailsShape, LacksRequired, IsReal;
    var name := FirstMissing(ListAt(schema, Required), members).value;
    HereIsReal(numeral, schema, Object(members), path, IsRequired(name));
  }

  lemma {:induction false} ShapeIsReal(numeral: Numeral, schema: Json, value: Json, path: seq<Step>)
    requires IsSchema(numeral, schema) && IsJson(schema) && HasTokens(value)
    ensures IsReal(numeral, schema, value, path, ShapeProblem(numeral, schema, value, path))
    decreases schema, 0, 1
  {
    hide IsSchema, IsJson, HasTokens, IsNode, IsReal, Fails, At, ListAt, IsListAt, TypeOf, MatchesType, JsonEqual,
         AnyEqual, IsBelow, HasSupportedLimits, CountMatches, FirstProblem;
    SchemaIsNode(numeral, schema);
    ListedAreBelow(schema);
    var all := ListAt(schema, AllOf);
    NoListNoItems(schema);
    if !MatchesType(numeral, TypeOf(schema).value, value) {
      TypeIsReal(numeral, schema, value);
      HereIsReal(numeral, schema, value, path, WrongType);
    } else if At(schema, Const).Some? && !JsonEqual(value, At(schema, Const).value) {
      ConstantIsReal(numeral, schema, value);
      HereIsReal(numeral, schema, value, path, NotConst);
    } else if IsListAt(schema, Enum) && !AnyEqual(ListAt(schema, Enum), value) {
      EnumIsReal(numeral, schema, value);
      HereIsReal(numeral, schema, value, path, NotAllowedValue);
    } else if FirstProblem(numeral, schema, all, value, path).Some? {
      AllAreAmong(numeral, schema);
      FirstIsReal(numeral, schema, all, value, path);
    } else {
      CombinedAreReal(numeral, schema, value, path);
    }
  }

  lemma CombinedAreReal(numeral: Numeral, schema: Json, value: Json, path: seq<Step>)
    requires IsSchema(numeral, schema) && IsJson(schema) && HasTokens(value)
    ensures AllBelow(ListAt(schema, AnyOf), schema) && AllBelow(ListAt(schema, OneOf), schema)
    ensures IsListAt(schema, AnyOf) && CountMatches(numeral, schema, ListAt(schema, AnyOf), value) == 0
            ==> IsReal(numeral, schema, value, path, Some(Problem(path, NoAllowedShape)))
    ensures IsListAt(schema, OneOf) && CountMatches(numeral, schema, ListAt(schema, OneOf), value) != 1
            ==> IsReal(numeral, schema, value, path, Some(Problem(path, NotExactlyOneShape)))
    ensures IsReal(numeral, schema, value, path, None)
  {
    hide IsSchema, IsJson, HasTokens, Fails, ListAt, IsListAt, IsBelow, CountMatches, Explains;
    ListedAreBelow(schema);
    if IsListAt(schema, AnyOf) && CountMatches(numeral, schema, ListAt(schema, AnyOf), value) == 0 {
      SomeIsReal(numeral, schema, value);
      HereIsReal(numeral, schema, value, path, NoAllowedShape);
    }
    if IsListAt(schema, OneOf) && CountMatches(numeral, schema, ListAt(schema, OneOf), value) != 1 {
      OneIsReal(numeral, schema, value);
      HereIsReal(numeral, schema, value, path, NotExactlyOneShape);
    }
  }

  lemma AllAreAmong(numeral: Numeral, schema: Json)
    requires IsJson(schema)
    ensures forall child :: child in ListAt(schema, AllOf) ==> IsAmong(schema, "allOf", child)
  {
    hide IsJson, ListAt, IsAmong, IsReadAs;
    ShapeWords(schema);
    forall child | child in ListAt(schema, AllOf)
      ensures IsAmong(schema, "allOf", child)
    {
      AmongIs(schema, AllOf, "allOf", child);
    }
  }

  lemma {:induction false} FirstIsReal(numeral: Numeral, schema: Json, children: seq<Json>, value: Json,
                                       path: seq<Step>)
    requires IsSchema(numeral, schema) && IsJson(schema) && HasTokens(value) && AllBelow(children, schema)
    requires forall child :: child in children ==> IsAmong(schema, "allOf", child)
    ensures IsReal(numeral, schema, value, path, FirstProblem(numeral, schema, children, value, path))
    decreases schema, 0, 0, |children|
  {
    hide IsSchema, IsJson, HasTokens, IsReal, IsAmong, IsBelow, MatchSchema;
    if children == [] {
      NothingIsReal(numeral, schema, value, path);
    } else {
      BelowIsSchema(numeral, schema, children[0]);
      BelowIsJson(schema, children[0]);
      MatchIsReal(numeral, children[0], value, path);
      ChildIsReal(numeral, schema, children[0], value, path, MatchSchema(numeral, children[0], value, path));
      FirstIsReal(numeral, schema, children[1..], value, path);
    }
  }

  lemma NothingIsReal(numeral: Numeral, schema: Json, value: Json, path: seq<Step>)
    ensures IsReal(numeral, schema, value, path, None)
  {
  }

  lemma {:induction false} ItemsAreReal(numeral: Numeral, schema: Json, child: Json, items: seq<Json>, from: nat,
                                        path: seq<Step>)
    requires IsSchema(numeral, schema) && IsJson(schema) && HasTokens(Array(items)) && from <= |items|
    requires At(schema, Items) == Some(child) && child < schema && IsBelow(child, schema)
    ensures IsReal(numeral, schema, Array(items), path, MatchItems(numeral, schema, child, items, from, path))
    decreases schema, 0, 0, |items| - from
  {
    hide IsSchema, IsJson, IsReal, IsBelow, MatchSchema, At, Says;
    if from == |items| {
      NothingIsReal(numeral, schema, Array(items), path);
    } else {
      BelowIsSchema(numeral, schema, child);
      BelowIsJson(schema, child);
      ChildWords(schema);
      MatchIsReal(numeral, child, items[from], path + [Index(from)]);
      ItemIsReal(numeral, schema, child, items, from, path,
                 MatchSchema(numeral, child, items[from], path + [Index(from)]));
      ItemsAreReal(numeral, schema, child, items, from + 1, path);
    }
  }

  lemma {:induction false} MembersAreReal(numeral: Numeral, schema: Json, all: seq<Member>, members: seq<Member>,
                                          path: seq<Step>)
    requires IsSchema(numeral, schema) && IsJson(schema) && forall m :: m in members ==> m in all && HasTokens(m.value)
    ensures IsReal(numeral, schema, Object(all), path, MatchMembers(numeral, schema, members, path))
    decreases schema, 0, 0, |members|
  {
    hide IsSchema, IsJson, HasTokens, IsReal, IsBelow, MatchSchema, At, Says, PropertyAt, IsClosed, Describes;
    if members == [] {
      NothingIsReal(numeral, schema, Object(all), path);
    } else {
      var key := members[0].key;
      var child := PropertyAt(numeral, schema, key);
      SchemaIsNode(numeral, schema);
      PropertyDescribes(numeral, schema, key);
      if child.Some? {
        BelowIsSchema(numeral, schema, child.value);
        BelowIsJson(schema, child.value);
        MatchIsReal(numeral, child.value, members[0].value, path + [Key(key)]);
        MemberIsReal(numeral, schema, child.value, all, members[0], path,
                     MatchSchema(numeral, child.value, members[0].value, path + [Key(key)]));
      } else if IsClosed(schema) {
        ClosedIs(schema);
        var i :| 0 <= i < |all| && all[i] == members[0];
        ForbiddenIsReal(numeral, schema, all, key, path);
      }
      MembersAreReal(numeral, schema, all, members[1..], path);
    }
  }

  lemma PropertyDescribes(numeral: Numeral, schema: Json, key: Text)
    requires IsSchema(numeral, schema) && IsJson(schema) && IsNode(numeral, schema)
    ensures forall child :: Describes(schema, key, child) <==> PropertyAt(numeral, schema, key) == Some(child)
  {
    hide IsSchema, IsJson, IsNode, At, Describes, GetIn;
    DescribedIs(numeral, schema, key);
  }
}
