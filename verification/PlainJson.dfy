/**
 * The plain printer, which writes object keys in the order they have: values that print alike
 * are equal, the order of their keys included.
 */
module PlainJson {
  import opened CanonicalJson

  function Stringify(v: Json): Text {
    match v
    case Array(items) => [OPEN_ARRAY] + StringifyItems(items) + [CLOSE_ARRAY]
    case Object(members) => [OPEN_OBJECT] + StringifyMembers(members) + [CLOSE_OBJECT]
    case _ => Print(v)
  }

  function StringifyItems(items: seq<Json>): Text {
    if items == [] then []
    else Stringify(items[0]) + (if |items| == 1 then [] else [COMMA] + StringifyItems(items[1..]))
  }

  function StringifyMembers(members: seq<Member>): Text {
    if members == [] then []
    else Quote(members[0].key) + [COLON] + Stringify(members[0].value)
         + (if |members| == 1 then [] else [COMMA] + StringifyMembers(members[1..]))
  }

  /** The number tokens in a value are well-formed. */
  predicate HasTokens(v: Json) {
    match v
    case Number(token) => IsNumberToken(token)
    case Array(items) => forall i :: 0 <= i < |items| ==> HasTokens(items[i])
    case Object(members) => forall i :: 0 <= i < |members| ==> HasTokens(members[i].value)
    case _ => true
  }

  lemma {:induction false} JsonHasTokens(v: Json)
    requires IsJson(v)
    ensures HasTokens(v)
  {
    match v {
      case Array(items) =>
        forall i | 0 <= i < |items| ensures HasTokens(items[i]) { JsonHasTokens(items[i]); }
      case Object(members) =>
        forall i | 0 <= i < |members| ensures HasTokens(members[i].value) { JsonHasTokens(members[i].value); }
      case _ =>
    }
  }

  lemma StringifyHead(v: Json)
    requires HasTokens(v)
    ensures Stringify(v) != [] && HeadKind(Stringify(v)[0]) == KindOf(v)
  {
    hide StringifyItems, StringifyMembers, EscapeFrom;
  }

  function ItemsText(items: seq<Json>, rest: Text): Text {
    StringifyItems(items) + [CLOSE_ARRAY] + rest
  }

  function AfterFirst(items: seq<Json>, rest: Text): (tail: Text)
    requires items != []
    ensures Follows(tail) && tail != [] && tail[0] == if |items| == 1 then CLOSE_ARRAY else COMMA
  {
    if |items| == 1 then [CLOSE_ARRAY] + rest else [COMMA] + ItemsText(items[1..], rest)
  }

  lemma AfterFirstIs(items: seq<Json>, rest: Text)
    requires items != []
    ensures AfterFirst(items, rest)
            == (if |items| == 1 then [] else [COMMA] + StringifyItems(items[1..])) + [CLOSE_ARRAY] + rest
  {
    hide StringifyItems;
  }

  lemma RegroupItems(a: Text, b: Text, c: Text, d: Text)
    ensures a + b + c + d == a + (b + c + d)
  {
  }

  lemma ItemsTextSplits(items: seq<Json>, rest: Text)
    requires items != [] ==> HasTokens(items[0])
    ensures items == [] ==> ItemsText(items, rest) == [CLOSE_ARRAY] + rest
    ensures items != [] ==> ItemsText(items, rest) == Stringify(items[0]) + AfterFirst(items, rest)
    ensures HeadKind(ItemsText(items, rest)[0]) == NoKind <==> items == []
  {
    if items != [] {
      StringifyHead(items[0]);
      AfterFirstIs(items, rest);
      hide Stringify, AfterFirst, HeadKind;
      var more := if |items| == 1 then [] else [COMMA] + StringifyItems(items[1..]);
      assert StringifyItems(items) == Stringify(items[0]) + more;
      hide StringifyItems;
      RegroupItems(Stringify(items[0]), more, [CLOSE_ARRAY], rest);
    }
  }

  function MembersText(members: seq<Member>, rest: Text): Text {
    StringifyMembers(members) + [CLOSE_OBJECT] + rest
  }

  function AfterFirstMember(members: seq<Member>, rest: Text): (tail: Text)
    requires members != []
    ensures Follows(tail) && tail != [] && tail[0] == if |members| == 1 then CLOSE_OBJECT else COMMA
  {
    if |members| == 1 then [CLOSE_OBJECT] + rest else [COMMA] + MembersText(members[1..], rest)
  }

  lemma AfterFirstMemberIs(members: seq<Member>, rest: Text)
    requires members != []
    ensures AfterFirstMember(members, rest)
            == (if |members| == 1 then [] else [COMMA] + StringifyMembers(members[1..])) + [CLOSE_OBJECT] + rest
  {
    hide StringifyMembers;
  }

  lemma MembersTextSplits(members: seq<Member>, rest: Text)
    ensures members == [] ==> MembersText(members, rest) == [CLOSE_OBJECT] + rest
    ensures members != [] ==> MembersText(members, rest)
                              == Quote(members[0].key)
                                 + ([COLON] + (Stringify(members[0].value) + AfterFirstMember(members, rest)))
    ensures MembersText(members, rest)[0] == if members == [] then CLOSE_OBJECT else QUOTE
  {
    if members != [] {
      QuoteHead(members[0].key);
      AfterFirstMemberIs(members, rest);
      hide Quote, Stringify, AfterFirstMember;
      var more := if |members| == 1 then [] else [COMMA] + StringifyMembers(members[1..]);
      assert StringifyMembers(members) == Quote(members[0].key) + [COLON] + Stringify(members[0].value) + more;
      hide StringifyMembers;
      Regroup(Quote(members[0].key), [COLON], Stringify(members[0].value), more, [CLOSE_OBJECT], rest);
    }
  }

  /** Equal text, whatever follows, comes from equal values. */
  lemma {:induction false} StringifyCancels(a: Json, b: Json, x: Text, y: Text)
    requires HasTokens(a) && HasTokens(b) && Follows(x) && Follows(y)
    requires Stringify(a) + x == Stringify(b) + y
    ensures a == b && x == y
    decreases a, 1
  {
    StringifyHead(a);
    StringifyHead(b);
    assert (Stringify(a) + x)[0] == Stringify(a)[0] && (Stringify(b) + y)[0] == Stringify(b)[0];
    hide HeadKind, StringifyItems, StringifyMembers, Quote;
    match a {
      case Array(items) => ArrayTextsCancel(items, b.items, x, y);
      case Object(members) => ObjectTextsCancel(members, b.members, x, y);
      case Number(token) => TokenCancels(token, b.token, x, y);
      case String(chars) => QuoteCancels(chars, b.chars, x, y);
      case _ => SplitEqually(Stringify(a), Stringify(b), x, y);
    }
  }

  lemma ArrayTextsCancel(xs: seq<Json>, ys: seq<Json>, x: Text, y: Text)
    requires HasTokens(Array(xs)) && HasTokens(Array(ys)) && Stringify(Array(xs)) + x == Stringify(Array(ys)) + y
    ensures xs == ys && x == y
    decreases xs, 1
  {
    hide StringifyItems;
    assert Stringify(Array(xs)) + x == [OPEN_ARRAY] + ItemsText(xs, x);
    assert Stringify(Array(ys)) + y == [OPEN_ARRAY] + ItemsText(ys, y);
    hide Stringify, ItemsText;
    SplitEqually([OPEN_ARRAY], [OPEN_ARRAY], ItemsText(xs, x), ItemsText(ys, y));
    ItemTextsCancel(xs, ys, x, y);
  }

  lemma ObjectTextsCancel(ms: seq<Member>, ns: seq<Member>, x: Text, y: Text)
    requires HasTokens(Object(ms)) && HasTokens(Object(ns)) && Stringify(Object(ms)) + x == Stringify(Object(ns)) + y
    ensures ms == ns && x == y
    decreases ms, 1
  {
    hide StringifyMembers;
    assert Stringify(Object(ms)) + x == [OPEN_OBJECT] + MembersText(ms, x);
    assert Stringify(Object(ns)) + y == [OPEN_OBJECT] + MembersText(ns, y);
    hide Stringify, MembersText;
    SplitEqually([OPEN_OBJECT], [OPEN_OBJECT], MembersText(ms, x), MembersText(ns, y));
    MemberTextsCancel(ms, ns, x, y);
  }

  lemma {:induction false} ItemTextsCancel(xs: seq<Json>, ys: seq<Json>, x: Text, y: Text)
    requires (forall i :: 0 <= i < |xs| ==> HasTokens(xs[i])) && (forall i :: 0 <= i < |ys| ==> HasTokens(ys[i]))
    requires ItemsText(xs, x) == ItemsText(ys, y)
    ensures xs == ys && x == y
    decreases xs, 0
  {
    hide Stringify, StringifyItems, ItemsText, HeadKind;
    ItemsTextSplits(xs, x);
    ItemsTextSplits(ys, y);
    if xs == [] {
      SplitEqually([CLOSE_ARRAY], [CLOSE_ARRAY], x, y);
    } else {
      StringifyCancels(xs[0], ys[0], AfterFirst(xs, x), AfterFirst(ys, y));
      if |xs| == 1 {
        SplitEqually([CLOSE_ARRAY], [CLOSE_ARRAY], x, y);
      } else {
        SplitEqually([COMMA], [COMMA], ItemsText(xs[1..], x), ItemsText(ys[1..], y));
        ItemTextsCancel(xs[1..], ys[1..], x, y);
      }
      assert xs == [xs[0]] + xs[1..] && ys == [ys[0]] + ys[1..];
    }
  }

  lemma {:induction false} MemberTextsCancel(ms: seq<Member>, ns: seq<Member>, x: Text, y: Text)
    requires (forall i :: 0 <= i < |ms| ==> HasTokens(ms[i].value))
    requires (forall i :: 0 <= i < |ns| ==> HasTokens(ns[i].value))
    requires MembersText(ms, x) == MembersText(ns, y)
    ensures ms == ns && x == y
    decreases ms, 0
  {
    hide Stringify, StringifyMembers, MembersText, Quote;
    MembersTextSplits(ms, x);
    MembersTextSplits(ns, y);
    if ms == [] {
      SplitEqually([CLOSE_OBJECT], [CLOSE_OBJECT], x, y);
    } else {
      var a, b := AfterFirstMember(ms, x), AfterFirstMember(ns, y);
      QuoteCancels(ms[0].key, ns[0].key, [COLON] + (Stringify(ms[0].value) + a),
                   [COLON] + (Stringify(ns[0].value) + b));
      SplitEqually([COLON], [COLON], Stringify(ms[0].value) + a, Stringify(ns[0].value) + b);
      StringifyCancels(ms[0].value, ns[0].value, a, b);
      if |ms| == 1 {
        SplitEqually([CLOSE_OBJECT], [CLOSE_OBJECT], x, y);
      } else {
        SplitEqually([COMMA], [COMMA], MembersText(ms[1..], x), MembersText(ns[1..], y));
        MemberTextsCancel(ms[1..], ns[1..], x, y);
      }
      assert ms == [ms[0]] + ms[1..] && ns == [ns[0]] + ns[1..];
    }
  }

  /** Values print alike only when they are equal, the order of their keys included. */
  lemma StringifyIsInjective(a: Json, b: Json)
    requires HasTokens(a) && HasTokens(b) && Stringify(a) == Stringify(b)
    ensures a == b
  {
    assert Stringify(a) + [] == Stringify(a) && Stringify(b) + [] == Stringify(b);
    StringifyCancels(a, b, [], []);
  }
}
