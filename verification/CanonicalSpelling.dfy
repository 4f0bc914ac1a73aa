/**
 * What the canonical text of a value looks like: which key comes before which, how parts are
 * joined, and how each code unit of a string is spelled.
 */
module CanonicalSpelling {
  import opened CanonicalJson

  // ---------- The order of keys ----------

  /** One text is a proper part of the other's beginning, or is smaller where they first differ. */
  ghost predicate Precedes(a: Text, b: Text) {
    || (|a| < |b| && b[..|a|] == a)
    || exists i :: 0 <= i < |a| && i < |b| && DiffersAt(a, b, i) && a[i] < b[i]
  }

  ghost predicate DiffersAt(a: Text, b: Text, i: int)
    requires 0 <= i < |a| && i < |b|
  {
    a[..i] == b[..i] && a[i] != b[i]
  }

  lemma {:induction false} BeforeMeansPrecedes(a: Text, b: Text)
    ensures Before(a, b) <==> Precedes(a, b)
  {
    if a != [] && b != [] {
      var s, t := a[1..], b[1..];
      assert a == [a[0]] + s && b == [b[0]] + t;
      BeforeMeansPrecedes(s, t);
      if a[0] != b[0] {
        assert a[..0] == b[..0];
        assert DiffersAt(a, b, 0);
      } else {
        TailPrecedes(a, b);
      }
    }
  }

  lemma TailPrecedes(a: Text, b: Text)
    requires a != [] && b != [] && a[0] == b[0]
    ensures Precedes(a, b) <==> Precedes(a[1..], b[1..])
  {
    hide DiffersAt;
    var s, t := a[1..], b[1..];
    TailPrefix(a, b);
    if Precedes(a, b) && !(|a| < |b| && b[..|a|] == a) {
      var i :| 0 <= i < |a| && i < |b| && DiffersAt(a, b, i) && a[i] < b[i];
      FirstsAgree(a, b, i);
      TailDiffers(a, b, i - 1);
      assert s[i - 1] < t[i - 1];
    }
    if Precedes(s, t) && !(|s| < |t| && t[..|s|] == s) {
      var i :| 0 <= i < |s| && i < |t| && DiffersAt(s, t, i) && s[i] < t[i];
      TailDiffers(a, b, i);
      assert a[i + 1] < b[i + 1];
    }
  }

  lemma TailPrefix(a: Text, b: Text)
    requires a != [] && b != [] && a[0] == b[0]
    ensures |a| < |b| && b[..|a|] == a <==> |a[1..]| < |b[1..]| && b[1..][..|a[1..]|] == a[1..]
  {
    assert a == [a[0]] + a[1..];
    if |a| < |b| {
      assert b[..|a|] == [b[0]] + b[1..][..|a| - 1];
    }
  }

  lemma FirstsAgree(a: Text, b: Text, i: nat)
    requires i < |a| && i < |b| && DiffersAt(a, b, i) && a[0] == b[0]
    ensures i > 0
  {
  }

  lemma TailDiffers(a: Text, b: Text, i: nat)
    requires a != [] && b != [] && a[0] == b[0] && i + 1 < |a| && i + 1 < |b|
    ensures DiffersAt(a, b, i + 1) <==> DiffersAt(a[1..], b[1..], i)
  {
    assert a[..i + 1] == [a[0]] + a[1..][..i] && b[..i + 1] == [b[0]] + b[1..][..i];
  }

  /** Keys are sorted by their code units, the smaller one first, and a prefix before what it begins. */
  lemma SortedByCodeUnits(keys: seq<Text>)
    requires forall i, j :: 0 <= i < j < |keys| ==> keys[i] != keys[j]
    ensures |Sort(keys)| == |keys| && forall k :: k in Sort(keys) <==> k in keys
    ensures forall i, j :: 0 <= i < j < |keys| ==> Precedes(Sort(keys)[i], Sort(keys)[j])
  {
    hide Sort, Before, Precedes;
    SortIsAscending(keys);
    forall i, j | 0 <= i < j < |keys|
      ensures Precedes(Sort(keys)[i], Sort(keys)[j])
    {
      BeforeMeansPrecedes(Sort(keys)[i], Sort(keys)[j]);
    }
  }

  // ---------- Arrays and objects ----------

  /** Parts with a comma between each and the next. */
  function Commas(parts: seq<Text>): Text {
    if parts == [] then []
    else if |parts| == 1 then parts[0]
    else parts[0] + Ascii(",") + Commas(parts[1..])
  }

  ghost predicate ArePrinted(items: seq<Json>, parts: seq<Text>) {
    |parts| == |items| && forall i :: 0 <= i < |items| ==> parts[i] == Print(items[i])
  }

  lemma {:induction false} ItemsAreJoined(items: seq<Json>, parts: seq<Text>)
    requires ArePrinted(items, parts)
    ensures PrintItems(items) == Commas(parts)
    decreases |items|
  {
    hide Print;
    if |items| > 1 {
      ItemsAreJoined(items[1..], parts[1..]);
    }
  }

  lemma ArrayText(items: seq<Json>, parts: seq<Text>)
    requires ArePrinted(items, parts)
    ensures Print(Array(items)) == Ascii("[") + Commas(parts) + Ascii("]")
  {
    ItemsAreJoined(items, parts);
    hide PrintItems, Commas, ArePrinted;
  }

  /** The part for a member is its quoted key, a colon and its value. */
  ghost predicate AreMemberParts(members: seq<Member>, parts: seq<Text>) {
    && |parts| == |members|
    && forall i :: 0 <= i < |members| ==> parts[i] == Quote(members[i].key) + Ascii(":") + Print(members[i].value)
  }

  ghost predicate AreFound(members: seq<Member>, keys: seq<Text>, sorted: seq<Member>) {
    && |sorted| == |keys| && (forall k :: k in keys ==> k in Keys(members))
    && forall i :: 0 <= i < |keys| ==> sorted[i] == Lookup(members, keys[i])
  }

  lemma {:induction false} MembersAreJoined(members: seq<Member>, keys: seq<Text>, sorted: seq<Member>,
                                            parts: seq<Text>)
    requires AreFound(members, keys, sorted) && AreMemberParts(sorted, parts)
    ensures PrintMembers(members, keys) == Commas(parts)
    decreases |keys|
  {
    hide Print, Quote, Lookup, Keys;
    if |keys| > 1 {
      PrintMembersStep(members, keys);
      MembersAreJoined(members, keys[1..], sorted[1..], parts[1..]);
    }
  }

  ghost predicate InOrder(sorted: seq<Member>) {
    forall i, j :: 0 <= i < j < |sorted| ==> Precedes(sorted[i].key, sorted[j].key)
  }

  function InKeyOrder(members: seq<Member>): (sorted: seq<Member>)
    requires DistinctKeys(members)
  {
    var keys := Sort(Keys(members));
    seq(|keys|, i requires 0 <= i < |keys| => assert keys[i] in keys; Lookup(members, keys[i]))
  }

  lemma FoundInOrder(members: seq<Member>)
    requires DistinctKeys(members)
    ensures AreFound(members, Sort(Keys(members)), InKeyOrder(members))
    ensures |Sort(Keys(members))| == |members| && InOrder(InKeyOrder(members))
    ensures forall k :: k in Keys(members) ==> k in Sort(Keys(members))
  {
    hide Sort, Lookup, Precedes, Keys;
    SortedByCodeUnits(Keys(members));
  }

  /** The members of an object in the order of their keys: the same members, each key before the next. */
  lemma KeyOrder(members: seq<Member>)
    requires DistinctKeys(members)
    ensures InOrder(InKeyOrder(members)) && |InKeyOrder(members)| == |members|
    ensures forall m :: m in InKeyOrder(members) <==> m in members
  {
    hide Sort, Lookup, Precedes, Keys, InKeyOrder, InOrder;
    FoundInOrder(members);
    var keys, sorted := Sort(Keys(members)), InKeyOrder(members);
    forall m | m in members
      ensures m in sorted
    {
      var i :| 0 <= i < |members| && members[i] == m;
      assert Keys(members)[i] == m.key;
      assert m.key in keys;
      var j :| 0 <= j < |keys| && keys[j] == m.key;
      LookupFinds(members, i);
      assert sorted[j] == m;
    }
  }

  /** An object is written member by member, in the order of the keys. */
  lemma ObjectText(members: seq<Member>, parts: seq<Text>)
    requires DistinctKeys(members) && AreMemberParts(InKeyOrder(members), parts)
    ensures Print(Object(members)) == Ascii("{") + Commas(parts) + Ascii("}")
  {
    hide Sort, Print, PrintMembers, Commas, InKeyOrder, AreMemberParts, AreFound, InOrder, DistinctKeys;
    FoundInOrder(members);
    MembersAreJoined(members, Sort(Keys(members)), InKeyOrder(members), parts);
    ObjectIs(members);
  }

  lemma ObjectIs(members: seq<Member>)
    ensures Print(Object(members)) == Ascii("{") + PrintMembers(members, Sort(Keys(members))) + Ascii("}")
  {
    hide PrintMembers, Sort, Keys;
  }

  lemma Words(truth: bool, token: Text, chars: Text)
    ensures Print(Null) == Ascii("null")
    ensures Print(Boolean(truth)) == Ascii(if truth then "true" else "false")
    ensures Print(Number(token)) == token && Print(String(chars)) == Quote(chars)
  {
    hide Quote;
    assert Ascii("null") == [110, 117, 108, 108];
    assert Ascii("true") == [116, 114, 117, 101];
    assert Ascii("false") == [102, 97, 108, 115, 101];
  }

  // ---------- Strings ----------

  ghost predicate IsSurrogateAlone(s: Text, i: nat)
    requires i < |s|
  {
    || (0xD800 <= s[i] < 0xDC00 && (i + 1 == |s| || s[i + 1] < 0xDC00 || 0xE000 <= s[i + 1]))
    || (0xDC00 <= s[i] < 0xE000 && (i == 0 || s[i - 1] < 0xD800 || 0xDC00 <= s[i - 1]))
  }

  /** The letter that stands for a control in its short escape. */
  function ShortName(c: Unit): Text {
    if c == 8 then Ascii("b") else if c == 9 then Ascii("t") else if c == 10 then Ascii("n")
    else if c == 12 then Ascii("f") else if c == 13 then Ascii("r") else []
  }

  /** Four lower-case hexadecimal digits, the highest first. */
  ghost predicate AreFourDigits(digits: Text, n: int) {
    && |digits| == 4 && 0 <= n < 0x1_0000
    && digits[0] == Ascii("0123456789abcdef")[n / 4096]
    && digits[1] == Ascii("0123456789abcdef")[n / 256 % 16]
    && digits[2] == Ascii("0123456789abcdef")[n / 16 % 16]
    && digits[3] == Ascii("0123456789abcdef")[n % 16]
  }

  lemma HexDigitIs(d: int)
    requires 0 <= d < 16
    ensures HexDigit(d) == Ascii("0123456789abcdef")[d]
  {
    hide Ascii;
    var digits := "0123456789abcdef";
    AsciiAt(digits, d);
    if d < 10 {
      assert digits[d] as int == 48 + d;
    } else {
      assert digits[d] as int == 87 + d;
    }
  }

  /**
   * A quotation mark and a backslash are escaped, five controls by a letter, the other controls
   * and surrogates that stand alone by their number. Every other unit is written as it is.
   */
  lemma UnitText(s: Text, i: nat)
    requires i < |s|
    ensures var c, text := s[i], EscapeUnit(s, i);
            var isShort := c in {8, 9, 10, 12, 13};
            var isNumbered := !isShort && (c < 32 || IsSurrogateAlone(s, i));
            && (c in {34, 92} ==> text == Ascii("\\") + [c])
            && (isShort ==> text == Ascii("\\") + ShortName(c))
            && (isNumbered ==> |text| == 6 && text[..2] == Ascii("\\u") && AreFourDigits(text[2..], c))
            && (c !in {34, 92} && !isShort && !isNumbered ==> text == [c])
  {
    hide HexDigit, Ascii;
    var c := s[i];
    HexDigitIs(c / 4096);
    HexDigitIs(c / 256 % 16);
    HexDigitIs(c / 16 % 16);
    HexDigitIs(c % 16);
    Backslashes();
    ShortNames(c);
    assert IsLone(s, i) <==> IsSurrogateAlone(s, i);
  }

  lemma Backslashes()
    ensures Ascii("\\") == [92] && Ascii("\\u") == [92, 117]
  {
  }

  lemma ShortNames(c: Unit)
    ensures c in {8, 9, 10, 12, 13}
            ==> ShortName(c) == [if c == 8 then 98 else if c == 9 then 116 else if c == 10 then 110
                                 else if c == 12 then 102 else 114]
  {
  }

  /** The spellings of the units one after the other. */
  function Spelled(parts: seq<Text>): Text {
    if parts == [] then [] else parts[0] + Spelled(parts[1..])
  }

  ghost predicate AreUnits(s: Text, from: nat, parts: seq<Text>) {
    from + |parts| == |s| && forall i :: 0 <= i < |parts| ==> parts[i] == EscapeUnit(s, from + i)
  }

  lemma {:induction false} EscapedUnits(s: Text, from: nat, parts: seq<Text>)
    requires AreUnits(s, from, parts)
    ensures EscapeFrom(s, from) == Spelled(parts)
    decreases |parts|
  {
    hide EscapeUnit;
    if parts != [] {
      assert AreUnits(s, from + 1, parts[1..]);
      EscapedUnits(s, from + 1, parts[1..]);
    }
  }

  lemma QuotedText(s: Text, parts: seq<Text>)
    requires AreUnits(s, 0, parts)
    ensures Quote(s) == Ascii("\"") + Spelled(parts) + Ascii("\"")
  {
    EscapedUnits(s, 0, parts);
    hide EscapeFrom, Spelled, AreUnits;
    assert Ascii("\"") == [34];
  }

  /** Numbers are written with digits, signs, points and exponent marks, and start with a digit or a minus sign. */
  lemma NumberText(token: Text)
    ensures IsNumberToken(token) <==>
            && token != [] && token[0] in Ascii("-0123456789")
            && forall i :: 0 <= i < |token| ==> token[i] in Ascii("0123456789+-.e")
  {
    forall c: Unit
      ensures c in Ascii("-0123456789") <==> c == 45 || 48 <= c <= 57
      ensures c in Ascii("0123456789+-.e") <==> IsNumberUnit(c)
    {
      Digits(c);
    }
    hide Ascii;
  }

  lemma Digits(c: Unit)
    ensures c in Ascii("-0123456789") <==> c == 45 || 48 <= c <= 57
    ensures c in Ascii("0123456789+-.e") <==> IsNumberUnit(c)
  {
    assert Ascii("-0123456789") == [45, 48, 49, 50, 51, 52, 53, 54, 55, 56, 57];
    assert Ascii("0123456789+-.e") == [48, 49, 50, 51, 52, 53, 54, 55, 56, 57, 43, 45, 46, 101];
  }
}
