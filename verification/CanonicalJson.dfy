/**
 * The canonical JSON printer behind runtime attestations: object keys are sorted, nothing is
 * spaced, and two values print alike exactly when they are equal up to the order of keys.
 *
 * Text is a sequence of UTF-16 code units. A number is known only by the token it prints as.
 */
module CanonicalJson {

  type Unit = n: int | 0 <= n < 0x1_0000

  type Text = seq<Unit>

  datatype Json =
    | Null
    | Boolean(truth: bool)
    | Number(token: Text)
    | String(chars: Text)
    | Array(items: seq<Json>)
    | Object(members: seq<Member>)

  datatype Member = Member(key: Text, value: Json)

  /** The code units of a text that is spelled out. */
  function Ascii(s: string): Text {
    seq(|s|, i requires 0 <= i < |s| => if (s[i] as int) < 0x1_0000 then s[i] as int else 0)
  }

  lemma AsciiAt(s: string, i: nat)
    requires i < |s| && s[i] < 128 as char
    ensures |Ascii(s)| == |s| && Ascii(s)[i] == s[i] as int
  {
  }

  const QUOTE: Unit := 34
  const COMMA: Unit := 44
  const COLON: Unit := 58
  const OPEN_ARRAY: Unit := 91
  const BACKSLASH: Unit := 92
  const CLOSE_ARRAY: Unit := 93
  const OPEN_OBJECT: Unit := 123
  const CLOSE_OBJECT: Unit := 125

  // ---------- JSON values ----------

  /** A digit, a sign, a point or an exponent mark. */
  predicate IsNumberUnit(c: Unit) {
    48 <= c <= 57 || c in {43, 45, 46, 101}
  }

  predicate IsNumberToken(token: Text) {
    && token != [] && (48 <= token[0] <= 57 || token[0] == 45)
    && forall i :: 0 <= i < |token| ==> IsNumberUnit(token[i])
  }

  predicate DistinctKeys(members: seq<Member>) {
    forall i, j :: 0 <= i < j < |members| ==> members[i].key != members[j].key
  }

  predicate IsJson(v: Json) {
    match v
    case Number(token) => IsNumberToken(token)
    case Array(items) => forall i :: 0 <= i < |items| ==> IsJson(items[i])
    case Object(members) => DistinctKeys(members) && forall i :: 0 <= i < |members| ==> IsJson(members[i].value)
    case _ => true
  }

  /** Equality up to the order of object keys. */
  ghost predicate Same(a: Json, b: Json) {
    match (a, b)
    case (Array(xs), Array(ys)) => |xs| == |ys| && forall i :: 0 <= i < |xs| ==> Same(xs[i], ys[i])
    case (Object(ms), Object(ns)) =>
      |ms| == |ns|
      && forall i :: 0 <= i < |ms| ==>
           exists j :: 0 <= j < |ns| && ns[j].key == ms[i].key && Same(ms[i].value, ns[j].value)
    case (_, _) => a == b
  }

  // ---------- Quoting ----------

  function HexDigit(d: int): Unit
    requires 0 <= d < 16
  {
    if d < 10 then 48 + d else 87 + d
  }

  function HexValue(c: Unit): int {
    if c <= 57 then c - 48 else c - 87
  }

  predicate IsHighSurrogate(c: Unit) {
    0xD800 <= c <= 0xDBFF
  }

  predicate IsLowSurrogate(c: Unit) {
    0xDC00 <= c <= 0xDFFF
  }

  /** A surrogate that is not half of a pair. */
  predicate IsLone(s: Text, i: nat)
    requires i < |s|
  {
    || (IsHighSurrogate(s[i]) && !(i + 1 < |s| && IsLowSurrogate(s[i + 1])))
    || (IsLowSurrogate(s[i]) && !(i > 0 && IsHighSurrogate(s[i - 1])))
  }

  function HexEscape(c: Unit): Text {
    [BACKSLASH, 117, HexDigit(c / 4096), HexDigit(c / 256 % 16), HexDigit(c / 16 % 16), HexDigit(c % 16)]
  }

  /** How one code unit of a string is written. */
  function EscapeUnit(s: Text, i: nat): Text
    requires i < |s|
  {
    var c := s[i];
    if c == 8 then [BACKSLASH, 98]
    else if c == 9 then [BACKSLASH, 116]
    else if c == 10 then [BACKSLASH, 110]
    else if c == 12 then [BACKSLASH, 102]
    else if c == 13 then [BACKSLASH, 114]
    else if c == QUOTE || c == BACKSLASH then [BACKSLASH, c]
    else if c < 32 || IsLone(s, i) then HexEscape(c)
    else [c]
  }

  function EscapeFrom(s: Text, i: nat): Text
    requires i <= |s|
    decreases |s| - i
  {
    if i == |s| then [] else EscapeUnit(s, i) + EscapeFrom(s, i + 1)
  }

  function Quote(s: Text): Text {
    [QUOTE] + EscapeFrom(s, 0) + [QUOTE]
  }

  // ---------- Printing ----------

  function Keys(members: seq<Member>): (keys: seq<Text>)
    ensures |keys| == |members| && forall i :: 0 <= i < |members| ==> keys[i] == members[i].key
  {
    if members == [] then [] else [members[0].key] + Keys(members[1..])
  }

  /** The order of strings by code units. */
  predicate Before(a: Text, b: Text) {
    b != [] && (a == [] || a[0] < b[0] || (a[0] == b[0] && Before(a[1..], b[1..])))
  }

  function Insert(key: Text, sorted: seq<Text>): seq<Text> {
    if sorted == [] || Before(key, sorted[0]) then [key] + sorted else [sorted[0]] + Insert(key, sorted[1..])
  }

  function Sort(keys: seq<Text>): (sorted: seq<Text>)
    ensures forall k :: k in sorted <==> k in keys
  {
    if keys == [] then [] else
      var rest := Sort(keys[1..]);
      InsertAdds(keys[0], rest);
      assert keys == [keys[0]] + keys[1..];
      Insert(keys[0], rest)
  }

  lemma InsertAdds(key: Text, sorted: seq<Text>)
    ensures forall k :: k in Insert(key, sorted) <==> k == key || k in sorted
  {
    if sorted != [] && !Before(key, sorted[0]) {
      InsertAdds(key, sorted[1..]);
      assert sorted == [sorted[0]] + sorted[1..];
    }
  }

  function Lookup(members: seq<Member>, key: Text): (member: Member)
    requires key in Keys(members)
    ensures member in members && member.key == key
  {
    if members[0].key == key then members[0]
    else
      assert Keys(members) == [members[0].key] + Keys(members[1..]);
      Lookup(members[1..], key)
  }

  function Print(v: Json): Text {
    match v
    case Null => [110, 117, 108, 108]
    case Boolean(truth) => if truth then [116, 114, 117, 101] else [102, 97, 108, 115, 101]
    case Number(token) => token
    case String(chars) => Quote(chars)
    case Array(items) => [OPEN_ARRAY] + PrintItems(items) + [CLOSE_ARRAY]
    case Object(members) => [OPEN_OBJECT] + PrintMembers(members, Sort(Keys(members))) + [CLOSE_OBJECT]
  }

  function PrintItems(items: seq<Json>): Text {
    if items == [] then []
    else if |items| == 1 then Print(items[0])
    else Print(items[0]) + [COMMA] + PrintItems(items[1..])
  }

  function PrintMembers(members: seq<Member>, keys: seq<Text>): Text
    requires forall k :: k in keys ==> k in Keys(members)
    decreases members, |keys|
  {
    if keys == [] then []
    else
      var member := Lookup(members, keys[0]);
      var first := Quote(keys[0]) + [COLON] + Print(member.value);
      if |keys| == 1 then first else first + [COMMA] + PrintMembers(members, keys[1..])
  }

  // ---------- The order of keys ----------

  lemma {:induction false} BeforeIsStrict(a: Text, b: Text, c: Text)
    ensures !Before(a, a)
    ensures Before(a, b) && Before(b, c) ==> Before(a, c)
    ensures a == b || Before(a, b) || Before(b, a)
    decreases |a| + |b| + |c|
  {
    if a != [] {
      BeforeIsStrict(a[1..], if b == [] then [] else b[1..], if c == [] then [] else c[1..]);
      if b != [] && a[0] == b[0] && a[1..] == b[1..] {
        assert a == [a[0]] + a[1..] && b == [b[0]] + b[1..];
      }
    }
  }

  ghost predicate Ascending(keys: seq<Text>) {
    forall i, j :: 0 <= i < j < |keys| ==> Before(keys[i], keys[j])
  }

  lemma {:induction false} InsertKeepsAscending(key: Text, sorted: seq<Text>)
    requires Ascending(sorted) && key !in sorted
    ensures Ascending(Insert(key, sorted)) && |Insert(key, sorted)| == |sorted| + 1
  {
    if sorted != [] {
      BeforeIsStrict(key, sorted[0], sorted[0]);
      assert sorted[0] in sorted;
      if Before(key, sorted[0]) {
        forall i | 0 <= i < |sorted|
          ensures Before(key, sorted[i])
        {
          BeforeIsStrict(key, sorted[0], sorted[i]);
        }
      } else {
        InsertKeepsAscending(key, sorted[1..]);
        InsertAdds(key, sorted[1..]);
        var rest := Insert(key, sorted[1..]);
        forall i | 0 <= i < |rest|
          ensures Before(sorted[0], rest[i])
        {
          assert rest[i] in rest;
        }
      }
    }
  }

  lemma {:induction false} SortIsAscending(keys: seq<Text>)
    requires forall i, j :: 0 <= i < j < |keys| ==> keys[i] != keys[j]
    ensures Ascending(Sort(keys)) && |Sort(keys)| == |keys|
  {
    if keys != [] {
      SortIsAscending(keys[1..]);
      assert keys[0] !in keys[1..];
      InsertKeepsAscending(keys[0], Sort(keys[1..]));
    }
  }

  lemma NonemptyIncludes(a: seq<Text>, b: seq<Text>)
    requires forall k :: k in a ==> k in b
    ensures a != [] ==> b != []
  {
    if a != [] {
      assert a[0] in b;
    }
  }

  /** Sets of keys have one ascending arrangement. */
  lemma {:induction false} AscendingIsUnique(a: seq<Text>, b: seq<Text>)
    requires Ascending(a) && Ascending(b) && forall k :: k in a <==> k in b
    ensures a == b
    decreases |a|
  {
    NonemptyIncludes(a, b);
    NonemptyIncludes(b, a);
    if a != [] {
      assert a[0] in b && b[0] in a;
      BeforeIsStrict(a[0], b[0], a[0]);
      assert a[0] == b[0];
      forall k
        ensures k in a[1..] <==> k in b[1..]
      {
        BeforeIsStrict(k, k, k);
        assert k in a <==> k == a[0] || k in a[1..];
        assert k in b <==> k == b[0] || k in b[1..];
      }
      AscendingIsUnique(a[1..], b[1..]);
      assert a == [a[0]] + a[1..] && b == [b[0]] + b[1..];
    }
  }

  // ---------- Reading strings back ----------

  /** The code unit at the head of escaped text, and how much text it takes up. */
  function ReadUnit(text: Text): (int, nat)
    requires text != []
  {
    if text[0] != BACKSLASH || |text| < 2 then (text[0], 1)
    else
      var c := text[1];
      if c == 98 then (8, 2)
      else if c == 116 then (9, 2)
      else if c == 110 then (10, 2)
      else if c == 102 then (12, 2)
      else if c == 114 then (13, 2)
      else if c == 117 && |text| >= 6 then
        (4096 * HexValue(text[2]) + 256 * HexValue(text[3]) + 16 * HexValue(text[4]) + HexValue(text[5]), 6)
      else (c, 2)
  }

  lemma DigitInverts(d: int)
    requires 0 <= d < 16
    ensures HexValue(HexDigit(d)) == d
  {
  }

  lemma HexInverts(c: Unit)
    ensures 4096 * HexValue(HexDigit(c / 4096)) + 256 * HexValue(HexDigit(c / 256 % 16))
            + 16 * HexValue(HexDigit(c / 16 % 16)) + HexValue(HexDigit(c % 16)) == c
  {
    hide HexDigit, HexValue;
    DigitInverts(c / 4096);
    DigitInverts(c / 256 % 16);
    DigitInverts(c / 16 % 16);
    DigitInverts(c % 16);
    SixteenTimes(c);
    SixteenTimes(c / 16);
    SixteenTimes(c / 256);
    SixteenAgain(c);
  }

  lemma SixteenTimes(n: nat)
    ensures n == 16 * (n / 16) + n % 16
  {
  }

  lemma SixteenAgain(n: nat)
    ensures n / 16 / 16 == n / 256 && n / 256 / 16 == n / 4096
  {
  }

  lemma ReadUnitInverts(s: Text, i: nat, rest: Text)
    requires i < |s|
    ensures EscapeUnit(s, i) != [] && EscapeUnit(s, i)[0] != QUOTE
    ensures ReadUnit(EscapeUnit(s, i) + rest) == (s[i], |EscapeUnit(s, i)|)
  {
    HexInverts(s[i]);
    hide HexDigit, HexValue, IsLone;
  }

  /** Escaped text from position i, its closing quote, and what follows. */
  function Escaped(s: Text, i: nat, rest: Text): Text
    requires i <= |s|
  {
    EscapeFrom(s, i) + [QUOTE] + rest
  }

  lemma EscapedHead(s: Text, i: nat, rest: Text)
    requires i < |s|
    ensures var unit := EscapeUnit(s, i);
            && Escaped(s, i, rest) == unit + Escaped(s, i + 1, rest)
            && Escaped(s, i, rest)[0] != QUOTE
            && ReadUnit(Escaped(s, i, rest)) == (s[i], |unit|)
  {
    ReadUnitInverts(s, i, Escaped(s, i + 1, rest));
    hide EscapeUnit, ReadUnit;
    assert EscapeFrom(s, i) == EscapeUnit(s, i) + EscapeFrom(s, i + 1);
    assert Escaped(s, i, rest) == EscapeUnit(s, i) + Escaped(s, i + 1, rest);
  }

  lemma EscapedEnd(s: Text, rest: Text)
    ensures Escaped(s, |s|, rest) == [QUOTE] + rest
  {
  }

  lemma SplitEqually(a: Text, b: Text, x: Text, y: Text)
    requires a + x == b + y && |a| == |b|
    ensures x == y
  {
    assert x == (a + x)[|a|..] && y == (b + y)[|b|..];
  }

  /** Escaped text stops at its closing quote, so what follows cannot be taken for part of it. */
  lemma {:induction false} EscapeCancels(s: Text, i: nat, t: Text, j: nat, x: Text, y: Text)
    requires i <= |s| && j <= |t| && Escaped(s, i, x) == Escaped(t, j, y)
    ensures s[i..] == t[j..] && x == y
    decreases |s| - i
  {
    hide Escaped, EscapeUnit, ReadUnit;
    if i < |s| { EscapedHead(s, i, x); } else { EscapedEnd(s, x); }
    if j < |t| { EscapedHead(t, j, y); } else { EscapedEnd(t, y); }
    if i < |s| {
      SplitEqually(EscapeUnit(s, i), EscapeUnit(t, j), Escaped(s, i + 1, x), Escaped(t, j + 1, y));
      EscapeCancels(s, i + 1, t, j + 1, x, y);
      assert s[i..] == [s[i]] + s[i + 1..] && t[j..] == [t[j]] + t[j + 1..];
    } else {
      SplitEqually([QUOTE], [QUOTE], x, y);
    }
  }

  lemma QuoteCancels(s: Text, t: Text, x: Text, y: Text)
    requires Quote(s) + x == Quote(t) + y
    ensures s == t && x == y
  {
    assert Quote(s) + x == [QUOTE] + Escaped(s, 0, x) && Quote(t) + y == [QUOTE] + Escaped(t, 0, y);
    SplitEqually([QUOTE], [QUOTE], Escaped(s, 0, x), Escaped(t, 0, y));
    EscapeCancels(s, 0, t, 0, x, y);
    assert s[0..] == s && t[0..] == t;
  }

  // ---------- Printed values cannot be confused ----------

  datatype Kind = NullKind | TrueKind | FalseKind | NumberKind | StringKind | ArrayKind | ObjectKind | NoKind

  function KindOf(v: Json): Kind {
    match v
    case Null => NullKind
    case Boolean(truth) => if truth then TrueKind else FalseKind
    case Number(_) => NumberKind
    case String(_) => StringKind
    case Array(_) => ArrayKind
    case Object(_) => ObjectKind
  }

  /** The kind of value that text begins with. */
  function HeadKind(c: Unit): Kind {
    if c == 110 then NullKind
    else if c == 116 then TrueKind
    else if c == 102 then FalseKind
    else if c == QUOTE then StringKind
    else if c == OPEN_ARRAY then ArrayKind
    else if c == OPEN_OBJECT then ObjectKind
    else if IsNumberUnit(c) then NumberKind
    else NoKind
  }

  lemma PrintHead(v: Json)
    requires IsJson(v)
    ensures Print(v) != [] && HeadKind(Print(v)[0]) == KindOf(v)
  {
    hide PrintItems, PrintMembers, EscapeFrom, Sort, Keys;
  }

  /** Text that can follow a value: nothing, or something that could not extend a number. */
  predicate Follows(text: Text) {
    text != [] ==> !IsNumberUnit(text[0])
  }

  lemma LongerTokenOverlaps(a: Text, b: Text, x: Text, y: Text)
    requires forall i :: 0 <= i < |b| ==> IsNumberUnit(b[i])
    requires |a| < |b| && a + x == b + y
    ensures !Follows(x)
  {
    assert x[0] == (a + x)[|a|] == (b + y)[|a|] == b[|a|];
  }

  lemma TokenCancels(a: Text, b: Text, x: Text, y: Text)
    requires (forall i :: 0 <= i < |a| ==> IsNumberUnit(a[i])) && (forall i :: 0 <= i < |b| ==> IsNumberUnit(b[i]))
    requires Follows(x) && Follows(y) && a + x == b + y
    ensures a == b && x == y
  {
    if |a| < |b| {
      LongerTokenOverlaps(a, b, x, y);
    } else if |b| < |a| {
      LongerTokenOverlaps(b, a, y, x);
    } else {
      assert a == (a + x)[..|a|] && b == (b + y)[..|b|];
      SplitEqually(a, b, x, y);
    }
  }

  /** Values that print alike, whatever follows them, are the same, and the same text follows. */
  lemma {:induction false} PrintCancels(a: Json, b: Json, x: Text, y: Text)
    requires IsJson(a) && IsJson(b) && Follows(x) && Follows(y)
    requires Print(a) + x == Print(b) + y
    ensures Same(a, b) && x == y
    decreases a, 2
  {
    PrintHead(a);
    PrintHead(b);
    assert (Print(a) + x)[0] == Print(a)[0] && (Print(b) + y)[0] == Print(b)[0];
    hide HeadKind, PrintItems, PrintMembers, Quote;
    match a
    case Array(items) => ArrayCancels(items, b.items, x, y);
    case Object(members) => ObjectCancels(members, b.members, x, y);
    case Number(token) => TokenCancels(token, b.token, x, y);
    case String(chars) => QuoteCancels(chars, b.chars, x, y);
    case _ => SplitEqually(Print(a), Print(b), x, y);
  }

  /** Printed items, the closing bracket, and what follows. */
  function ItemsTail(items: seq<Json>, rest: Text): Text {
    PrintItems(items) + [CLOSE_ARRAY] + rest
  }

  function AfterItem(items: seq<Json>, rest: Text): (tail: Text)
    requires items != []
    ensures Follows(tail)
    ensures tail != [] && tail[0] == if |items| == 1 then CLOSE_ARRAY else COMMA
  {
    if |items| == 1 then [CLOSE_ARRAY] + rest else [COMMA] + ItemsTail(items[1..], rest)
  }

  lemma AfterItemIs(items: seq<Json>, rest: Text)
    requires items != []
    ensures AfterItem(items, rest)
            == (if |items| == 1 then [] else [COMMA] + PrintItems(items[1..])) + [CLOSE_ARRAY] + rest
  {
    hide PrintItems;
  }

  lemma RegroupItem(a: Text, b: Text, c: Text, d: Text)
    ensures a + b + c + d == a + (b + c + d)
  {
  }

  lemma ClosesNothing()
    ensures HeadKind(CLOSE_ARRAY) == NoKind
  {
  }

  lemma ItemsTailSplits(items: seq<Json>, rest: Text)
    requires items != [] ==> IsJson(items[0])
    ensures items == [] ==> ItemsTail(items, rest) == [CLOSE_ARRAY] + rest
    ensures items != [] ==> ItemsTail(items, rest) == Print(items[0]) + AfterItem(items, rest)
    ensures HeadKind(ItemsTail(items, rest)[0]) == NoKind <==> items == []
  {
    hide Print, AfterItem, HeadKind;
    if items != [] {
      PrintHead(items[0]);
      AfterItemIs(items, rest);
      var more := if |items| == 1 then [] else [COMMA] + PrintItems(items[1..]);
      assert PrintItems(items) == Print(items[0]) + more;
      RegroupItem(Print(items[0]), more, [CLOSE_ARRAY], rest);
    } else {
      assert ItemsTail(items, rest) == [CLOSE_ARRAY] + rest;
      ClosesNothing();
    }
  }

  lemma ArrayCancels(xs: seq<Json>, ys: seq<Json>, x: Text, y: Text)
    requires IsJson(Array(xs)) && IsJson(Array(ys)) && Print(Array(xs)) + x == Print(Array(ys)) + y
    ensures Same(Array(xs), Array(ys)) && x == y
    decreases xs, 1
  {
    hide PrintItems;
    assert Print(Array(xs)) + x == [OPEN_ARRAY] + ItemsTail(xs, x);
    assert Print(Array(ys)) + y == [OPEN_ARRAY] + ItemsTail(ys, y);
    SplitEqually([OPEN_ARRAY], [OPEN_ARRAY], ItemsTail(xs, x), ItemsTail(ys, y));
    ItemsCancel(xs, ys, x, y);
  }

  lemma {:induction false} ItemsCancel(xs: seq<Json>, ys: seq<Json>, x: Text, y: Text)
    requires (forall i :: 0 <= i < |xs| ==> IsJson(xs[i])) && (forall i :: 0 <= i < |ys| ==> IsJson(ys[i]))
    requires ItemsTail(xs, x) == ItemsTail(ys, y)
    ensures |xs| == |ys| && (forall i :: 0 <= i < |xs| ==> Same(xs[i], ys[i])) && x == y
    decreases xs, 0
  {
    hide Print, PrintItems, ItemsTail, HeadKind;
    ItemsTailSplits(xs, x);
    ItemsTailSplits(ys, y);
    if xs == [] {
      SplitEqually([CLOSE_ARRAY], [CLOSE_ARRAY], x, y);
    } else {
      PrintCancels(xs[0], ys[0], AfterItem(xs, x), AfterItem(ys, y));
      if |xs| == 1 {
        SplitEqually([CLOSE_ARRAY], [CLOSE_ARRAY], x, y);
      } else {
        SplitEqually([COMMA], [COMMA], ItemsTail(xs[1..], x), ItemsTail(ys[1..], y));
        ItemsCancel(xs[1..], ys[1..], x, y);
        assert forall i :: 0 < i < |xs| ==> xs[i] == xs[1..][i - 1] && ys[i] == ys[1..][i - 1];
      }
    }
  }

  /** Printed members, the closing brace, and what follows. */
  function MembersTail(members: seq<Member>, keys: seq<Text>, rest: Text): Text
    requires forall k :: k in keys ==> k in Keys(members)
  {
    PrintMembers(members, keys) + [CLOSE_OBJECT] + rest
  }

  function AfterMember(members: seq<Member>, keys: seq<Text>, rest: Text): (tail: Text)
    requires keys != [] && forall k :: k in keys ==> k in Keys(members)
    ensures Follows(tail)
    ensures tail != [] && tail[0] == if |keys| == 1 then CLOSE_OBJECT else COMMA
  {
    if |keys| == 1 then [CLOSE_OBJECT] + rest else [COMMA] + MembersTail(members, keys[1..], rest)
  }

  lemma Regroup(a: Text, b: Text, c: Text, d: Text, e: Text, f: Text)
    ensures a + b + c + d + e + f == a + (b + (c + (d + e + f)))
  {
  }

  lemma AfterMemberIs(members: seq<Member>, keys: seq<Text>, rest: Text)
    requires keys != [] && forall k :: k in keys ==> k in Keys(members)
    ensures AfterMember(members, keys, rest)
            == (if |keys| == 1 then [] else [COMMA] + PrintMembers(members, keys[1..])) + [CLOSE_OBJECT] + rest
  {
    hide PrintMembers, Keys;
  }

  lemma MembersTailSplits(members: seq<Member>, keys: seq<Text>, rest: Text)
    requires forall k :: k in keys ==> k in Keys(members)
    ensures keys == [] ==> MembersTail(members, keys, rest) == [CLOSE_OBJECT] + rest
    ensures keys != [] ==> MembersTail(members, keys, rest)
                           == Quote(keys[0])
                              + ([COLON] + (Print(Lookup(members, keys[0]).value) + AfterMember(members, keys, rest)))
    ensures MembersTail(members, keys, rest)[0] == if keys == [] then CLOSE_OBJECT else QUOTE
  {
    if keys != [] {
      PrintMembersStep(members, keys);
      QuoteHead(keys[0]);
      AfterMemberIs(members, keys, rest);
      hide Quote, Print, Lookup, PrintMembers, Keys, AfterMember;
      Regroup(Quote(keys[0]), [COLON], Print(Lookup(members, keys[0]).value),
              if |keys| == 1 then [] else [COMMA] + PrintMembers(members, keys[1..]), [CLOSE_OBJECT], rest);
    }
  }

  lemma QuoteHead(s: Text)
    ensures Quote(s) != [] && Quote(s)[0] == QUOTE
  {
  }

  lemma PrintMembersStep(members: seq<Member>, keys: seq<Text>)
    requires keys != [] && forall k :: k in keys ==> k in Keys(members)
    ensures PrintMembers(members, keys)
            == Quote(keys[0]) + [COLON] + Print(Lookup(members, keys[0]).value)
               + (if |keys| == 1 then [] else [COMMA] + PrintMembers(members, keys[1..]))
  {
    hide Quote, Print, Keys;
  }

  lemma {:induction false} MembersCancel(ms: seq<Member>, ks: seq<Text>, ns: seq<Member>, ls: seq<Text>, x: Text,
                                         y: Text)
    requires (forall i :: 0 <= i < |ms| ==> IsJson(ms[i].value)) && (forall i :: 0 <= i < |ns| ==> IsJson(ns[i].value))
    requires (forall k :: k in ks ==> k in Keys(ms)) && (forall k :: k in ls ==> k in Keys(ns))
    requires MembersTail(ms, ks, x) == MembersTail(ns, ls, y)
    ensures ks == ls && x == y
    ensures forall k :: k in ks ==> k in ls && Same(Lookup(ms, k).value, Lookup(ns, k).value)
    decreases ms, |ks|
  {
    hide Print, PrintMembers, MembersTail, Quote, Lookup, Keys, Same, IsJson;
    MembersTailSplits(ms, ks, x);
    MembersTailSplits(ns, ls, y);
    if ks == [] {
      SplitEqually([CLOSE_OBJECT], [CLOSE_OBJECT], x, y);
    } else {
      var m, n := Lookup(ms, ks[0]).value, Lookup(ns, ls[0]).value;
      var a, b := AfterMember(ms, ks, x), AfterMember(ns, ls, y);
      QuoteCancels(ks[0], ls[0], [COLON] + (Print(m) + a), [COLON] + (Print(n) + b));
      SplitEqually([COLON], [COLON], Print(m) + a, Print(n) + b);
      PrintCancels(m, n, a, b);
      if |ks| == 1 {
        SplitEqually([CLOSE_OBJECT], [CLOSE_OBJECT], x, y);
      } else {
        SplitEqually([COMMA], [COMMA], MembersTail(ms, ks[1..], x), MembersTail(ns, ls[1..], y));
        MembersCancel(ms, ks[1..], ns, ls[1..], x, y);
      }
      assert ks == [ks[0]] + ks[1..] && ls == [ls[0]] + ls[1..];
    }
  }

  lemma PrintObject(members: seq<Member>, rest: Text)
    ensures Print(Object(members)) + rest == [OPEN_OBJECT] + MembersTail(members, Sort(Keys(members)), rest)
  {
    hide PrintMembers, Sort, Keys;
  }

  lemma ObjectCancels(ms: seq<Member>, ns: seq<Member>, x: Text, y: Text)
    requires IsJson(Object(ms)) && IsJson(Object(ns)) && Print(Object(ms)) + x == Print(Object(ns)) + y
    ensures Same(Object(ms), Object(ns)) && x == y
    decreases ms, |ms| + 1
  {
    var ks, ls := Sort(Keys(ms)), Sort(Keys(ns));
    SortIsAscending(Keys(ms));
    SortIsAscending(Keys(ns));
    PrintObject(ms, x);
    PrintObject(ns, y);
    hide Print, PrintMembers, MembersTail, Sort, Lookup, Keys, Same;
    SplitEqually([OPEN_OBJECT], [OPEN_OBJECT], MembersTail(ms, ks, x), MembersTail(ns, ls, y));
    MembersCancel(ms, ks, ns, ls, x, y);
    SameByKey(ms, ns, ks);
  }

  lemma SameByKey(ms: seq<Member>, ns: seq<Member>, keys: seq<Text>)
    requires DistinctKeys(ms) && DistinctKeys(ns) && |ms| == |ns|
    requires forall k :: k in keys <==> k in Keys(ms)
    requires forall k :: k in keys ==> k in Keys(ns) && Same(Lookup(ms, k).value, Lookup(ns, k).value)
    ensures Same(Object(ms), Object(ns))
  {
    hide Keys, Lookup, DistinctKeys;
    forall i | 0 <= i < |ms|
      ensures exists j :: 0 <= j < |ns| && ns[j].key == ms[i].key && Same(ms[i].value, ns[j].value)
    {
      MemberHasTwin(ms, ns, keys, i);
    }
  }

  lemma MemberHasTwin(ms: seq<Member>, ns: seq<Member>, keys: seq<Text>, i: nat)
    requires DistinctKeys(ms) && i < |ms|
    requires forall k :: k in keys <==> k in Keys(ms)
    requires forall k :: k in keys ==> k in Keys(ns) && Same(Lookup(ms, k).value, Lookup(ns, k).value)
    ensures exists j :: 0 <= j < |ns| && ns[j].key == ms[i].key && Same(ms[i].value, ns[j].value)
  {
    hide Same;
    var k := ms[i].key;
    assert k == Keys(ms)[i] && k in keys;
    LookupFinds(ms, i);
    var j :| 0 <= j < |ns| && ns[j] == Lookup(ns, k);
    assert Same(Lookup(ms, k).value, Lookup(ns, k).value);
  }

  lemma LookupFinds(members: seq<Member>, i: nat)
    requires DistinctKeys(members) && i < |members|
    ensures members[i].key in Keys(members) && Lookup(members, members[i].key) == members[i]
  {
    assert Keys(members)[i] == members[i].key;
  }

  // ---------- The same value prints alike ----------

  lemma SameKeysSameSort(ms: seq<Member>, ns: seq<Member>)
    requires DistinctKeys(ms) && DistinctKeys(ns) && Same(Object(ms), Object(ns))
    ensures Sort(Keys(ms)) == Sort(Keys(ns))
  {
    SortIsAscending(Keys(ms));
    SortIsAscending(Keys(ns));
    SameKeySets(ms, ns);
    AscendingIsUnique(Sort(Keys(ms)), Sort(Keys(ns)));
  }

  /** Distinct keys, as many on both sides, one side among the other: then both sides have them all. */
  lemma SameKeySets(ms: seq<Member>, ns: seq<Member>)
    requires DistinctKeys(ms) && DistinctKeys(ns) && Same(Object(ms), Object(ns))
    ensures forall k :: k in Keys(ms) <==> k in Keys(ns)
  {
    var left, right := set k | k in Keys(ms), set k | k in Keys(ns);
    KeySetSize(ms);
    KeySetSize(ns);
    forall k | k in left
      ensures k in right
    {
      var i :| 0 <= i < |ms| && Keys(ms)[i] == k;
      var j :| 0 <= j < |ns| && ns[j].key == ms[i].key && Same(ms[i].value, ns[j].value);
      assert Keys(ns)[j] == k;
    }
    SubsetOfSameSize(left, right);
    assert forall k :: k in Keys(ms) <==> k in left;
    assert forall k :: k in Keys(ns) <==> k in right;
  }

  lemma SubsetOfSameSize(a: set<Text>, b: set<Text>)
    requires a <= b && |a| == |b|
    ensures a == b
  {
    assert |b - a| == |b| - |a|;
  }

  lemma FirstKeyIsNew(members: seq<Member>)
    requires DistinctKeys(members) && members != []
    ensures members[0].key !in Keys(members[1..])
  {
    var rest := members[1..];
    assert forall i :: 0 <= i < |rest| ==> rest[i] == members[i + 1];
  }

  lemma {:induction false} KeySetSize(members: seq<Member>)
    requires DistinctKeys(members)
    ensures |set k | k in Keys(members)| == |members|
  {
    if members == [] {
      assert (set k | k in Keys(members)) == {};
    } else {
      KeySetSize(members[1..]);
      var rest := set k | k in Keys(members[1..]);
      FirstKeyIsNew(members);
      assert Keys(members) == [members[0].key] + Keys(members[1..]);
      hide Keys;
      assert (set k | k in Keys(members)) == {members[0].key} + rest;
    }
  }

  lemma {:induction false} SamePrintsAlike(a: Json, b: Json)
    requires IsJson(a) && IsJson(b) && Same(a, b)
    ensures Print(a) == Print(b)
    decreases a, 1
  {
    match a
    case Array(items) => SameItemsPrintAlike(items, b.items);
    case Object(members) =>
      SameKeysSameSort(members, b.members);
      SameMembersPrintAlike(members, b.members, Sort(Keys(members)));
    case _ =>
  }

  lemma {:induction false} SameItemsPrintAlike(xs: seq<Json>, ys: seq<Json>)
    requires |xs| == |ys| && forall i :: 0 <= i < |xs| ==> IsJson(xs[i]) && IsJson(ys[i]) && Same(xs[i], ys[i])
    ensures PrintItems(xs) == PrintItems(ys)
    decreases xs, 0
  {
    if xs != [] {
      SamePrintsAlike(xs[0], ys[0]);
      SameItemsPrintAlike(xs[1..], ys[1..]);
    }
  }

  lemma {:induction false} SameMembersPrintAlike(ms: seq<Member>, ns: seq<Member>, keys: seq<Text>)
    requires IsJson(Object(ms)) && IsJson(Object(ns)) && Same(Object(ms), Object(ns))
    requires forall k :: k in keys ==> k in Keys(ms) && k in Keys(ns)
    ensures PrintMembers(ms, keys) == PrintMembers(ns, keys)
    decreases ms, |keys|
  {
    if keys != [] {
      var m, n := Lookup(ms, keys[0]), Lookup(ns, keys[0]);
      var i :| 0 <= i < |ms| && ms[i] == m;
      var j :| 0 <= j < |ns| && ns[j].key == ms[i].key && Same(ms[i].value, ns[j].value);
      LookupFinds(ns, j);
      SamePrintsAlike(m.value, n.value);
      SameMembersPrintAlike(ms, ns, keys[1..]);
    }
  }

  /** Two JSON values have the same canonical form exactly when they are equal up to key order. */
  lemma CanonicalForm(a: Json, b: Json)
    requires IsJson(a) && IsJson(b)
    ensures Print(a) == Print(b) <==> Same(a, b)
  {
    if Print(a) == Print(b) {
      PrintCancels(a, b, [], []);
    } else if Same(a, b) {
      SamePrintsAlike(a, b);
    }
  }
}
