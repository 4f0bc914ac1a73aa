/** Declared capabilities, their normal form, and the fingerprint that an approval binds to. */
module Capabilities {
  import opened CanonicalJson
  import opened CanonicalSpelling

  /** What a manifest lists: a name, or something that is no string. */
  datatype Declared = Named(name: Text) | Malformed

  datatype Request = Request(capabilities: seq<Declared>, agentInvocable: bool)

  datatype Grant = Grant(capabilities: seq<Text>, agentInvocable: bool)

  const COMMA_UNIT: Unit := 44
  const SEMICOLON: Unit := 59

  function ProjectScope(): seq<string> {
    ["project.read", "project.write", "project.metadata", "git.read", "git.write"]
  }

  function MachineScope(): seq<string> {
    ["fs.read", "fs.write", "terminal.spawn", "process.spawn"]
  }

  function Reach(): seq<string> {
    ["net.outbound", "shell.open", "shell.reveal"]
  }

  function All(): seq<string> {
    ProjectScope() + MachineScope() + Reach()
  }

  predicate IsCapability(name: Text) {
    exists i :: 0 <= i < |All()| && name == Ascii(All()[i])
  }

  /** The twelve names there are. */
  ghost predicate IsKnown(name: Text) {
    || name == Ascii("project.read") || name == Ascii("project.write") || name == Ascii("project.metadata")
    || name == Ascii("git.read") || name == Ascii("git.write")
    || name == Ascii("fs.read") || name == Ascii("fs.write")
    || name == Ascii("terminal.spawn") || name == Ascii("process.spawn")
    || name == Ascii("net.outbound") || name == Ascii("shell.open") || name == Ascii("shell.reveal")
  }

  lemma KnownNames(name: Text)
    ensures IsCapability(name) <==> IsKnown(name)
  {
    hide Ascii;
    var all := All();
    assert all == ["project.read", "project.write", "project.metadata", "git.read", "git.write",
                   "fs.read", "fs.write", "terminal.spawn", "process.spawn",
                   "net.outbound", "shell.open", "shell.reveal"];
    hide All;
    if IsKnown(name) {
      assert name == Ascii(all[0]) || name == Ascii(all[1]) || name == Ascii(all[2]) || name == Ascii(all[3])
          || name == Ascii(all[4]) || name == Ascii(all[5]) || name == Ascii(all[6]) || name == Ascii(all[7])
          || name == Ascii(all[8]) || name == Ascii(all[9]) || name == Ascii(all[10]) || name == Ascii(all[11]);
    }
  }

  /** A name that a list separated by commas and ended by a semicolon can carry. */
  predicate IsPlain(name: Text) {
    name != [] && forall i :: 0 <= i < |name| ==> name[i] != COMMA_UNIT && name[i] != SEMICOLON
  }

  predicate IsPlainString(s: string) {
    s != "" && forall i :: 0 <= i < |s| ==> (s[i] as int) < 128 && s[i] != ',' && s[i] != ';'
  }

  lemma PlainUnits(s: string)
    requires IsPlainString(s)
    ensures IsPlain(Ascii(s))
  {
  }

  lemma ProjectScopeIsPlain(i: nat)
    requires i < |ProjectScope()|
    ensures IsPlainString(ProjectScope()[i])
  {
  }

  lemma MachineScopeIsPlain(i: nat)
    requires i < |MachineScope()|
    ensures IsPlainString(MachineScope()[i])
  {
  }

  lemma ReachIsPlain(i: nat)
    requires i < |Reach()|
    ensures IsPlainString(Reach()[i])
  {
  }

  lemma CapabilitiesArePlain(name: Text)
    requires IsCapability(name)
    ensures IsPlain(name)
  {
    hide Ascii, ProjectScope, MachineScope, Reach, IsPlainString;
    var i: nat :| i < |All()| && name == Ascii(All()[i]);
    var n, m := |ProjectScope()|, |MachineScope()|;
    if i < n {
      ProjectScopeIsPlain(i);
    } else if i < n + m {
      MachineScopeIsPlain(i - n);
    } else {
      ReachIsPlain(i - n - m);
    }
    PlainUnits(All()[i]);
  }

  // ---------- Normal form ----------

  function Valid(values: seq<Declared>): (names: seq<Text>)
    ensures forall name :: name in names <==> Named(name) in values && IsCapability(name)
  {
    if values == [] then []
    else
      assert values == [values[0]] + values[1..];
      if values[0].Named? && IsCapability(values[0].name) then [values[0].name] + Valid(values[1..])
      else Valid(values[1..])
  }

  ghost predicate AreDistinct(names: seq<Text>) {
    forall i, j :: 0 <= i < j < |names| ==> names[i] != names[j]
  }

  /** The names in the order in which they first appear, each once. */
  function Dedupe(names: seq<Text>): (distinct: seq<Text>)
    ensures forall name :: name in distinct <==> name in names
    ensures AreDistinct(distinct)
  {
    if names == [] then []
    else
      var last := |names| - 1;
      assert names == names[..last] + [names[last]];
      if names[last] in names[..last] then Dedupe(names[..last]) else Dedupe(names[..last]) + [names[last]]
  }

  function NormalizeCapabilities(values: seq<Declared>): seq<Text> {
    Sort(Dedupe(Valid(values)))
  }

  function NormalizeGrant(request: Request): Grant {
    Grant(NormalizeCapabilities(request.capabilities), request.agentInvocable)
  }

  /** What a request asks for, whatever its order and repetitions. */
  ghost predicate AsksFor(request: Request, name: Text) {
    Named(name) in request.capabilities && IsKnown(name)
  }

  lemma NormalForm(values: seq<Declared>)
    ensures Ascending(NormalizeCapabilities(values))
    ensures forall name :: name in NormalizeCapabilities(values) <==> Named(name) in values && IsKnown(name)
  {
    hide Dedupe, Sort, Ascending, IsCapability, IsKnown;
    SortIsAscending(Dedupe(Valid(values)));
    forall name
      ensures name in NormalizeCapabilities(values) <==> Named(name) in values && IsKnown(name)
    {
      KnownNames(name);
    }
  }

  function AsRequest(grant: Grant): Request {
    Request(seq(|grant.capabilities|, i requires 0 <= i < |grant.capabilities| => Named(grant.capabilities[i])),
            grant.agentInvocable)
  }

  /** Normalizing twice is normalizing once. */
  lemma NormalizeIsIdempotent(request: Request)
    ensures NormalizeGrant(AsRequest(NormalizeGrant(request))) == NormalizeGrant(request)
  {
    hide IsKnown, NormalizeCapabilities, Ascending;
    var grant := NormalizeGrant(request);
    var again := AsRequest(grant);
    NormalForm(request.capabilities);
    NormalForm(again.capabilities);
    forall name
      ensures Named(name) in again.capabilities <==> name in grant.capabilities
    {
      if name in grant.capabilities {
        var i :| 0 <= i < |grant.capabilities| && grant.capabilities[i] == name;
        assert again.capabilities[i] == Named(name);
      }
    }
    AscendingIsUnique(NormalizeGrant(again).capabilities, grant.capabilities);
  }

  /** Requests are normalized alike exactly when they ask for the same things. */
  lemma SameNormalForm(a: Request, b: Request)
    ensures NormalizeGrant(a) == NormalizeGrant(b)
            <==> a.agentInvocable == b.agentInvocable && forall name :: AsksFor(a, name) <==> AsksFor(b, name)
  {
    hide IsKnown, NormalizeCapabilities, Ascending;
    NormalForm(a.capabilities);
    NormalForm(b.capabilities);
    if forall name :: AsksFor(a, name) <==> AsksFor(b, name) {
      forall name
        ensures name in NormalizeCapabilities(a.capabilities) <==> name in NormalizeCapabilities(b.capabilities)
      {
        assert AsksFor(a, name) <==> AsksFor(b, name);
      }
      AscendingIsUnique(NormalizeCapabilities(a.capabilities), NormalizeCapabilities(b.capabilities));
    }
    if NormalizeGrant(a) == NormalizeGrant(b) {
      forall name
        ensures AsksFor(a, name) <==> AsksFor(b, name)
      {
        assert AsksFor(a, name) <==> name in NormalizeCapabilities(a.capabilities);
        assert AsksFor(b, name) <==> name in NormalizeCapabilities(b.capabilities);
      }
    }
  }

  // ---------- The fingerprint ----------

  function Join(names: seq<Text>): Text {
    if names == [] then []
    else if |names| == 1 then names[0]
    else names[0] + [COMMA_UNIT] + Join(names[1..])
  }

  function FingerprintOf(grant: Grant): Text {
    Ascii("v1;") + Join(grant.capabilities) + Ascii(";agent=") + Flag(grant.agentInvocable)
  }

  function GrantFingerprint(request: Request): Text {
    FingerprintOf(NormalizeGrant(request))
  }

  lemma {:induction false} JoinHasCommas(names: seq<Text>)
    ensures Join(names) == Commas(names)
  {
    assert Ascii(",") == [44];
    hide Ascii;
    if |names| > 1 {
      JoinHasCommas(names[1..]);
    }
  }

  /** The text an approval binds to: a version, the capabilities in order with commas between, and the agent flag. */
  lemma FingerprintText(request: Request)
    ensures GrantFingerprint(request)
            == Ascii("v1;") + Commas(NormalizeCapabilities(request.capabilities)) + Ascii(";agent=")
               + Ascii(if request.agentInvocable then "1" else "0")
  {
    hide Ascii, Join, Commas, NormalizeCapabilities;
    JoinHasCommas(NormalizeCapabilities(request.capabilities));
  }

  /** Nothing, or something set off by a comma. */
  predicate IsRest(text: Text) {
    text == [] || text[0] == COMMA_UNIT
  }

  lemma LongerNameHasComma(a: Text, b: Text, x: Text, y: Text)
    requires IsRest(x) && |a| < |b| && a + x == b + y
    ensures !IsPlain(b)
  {
    assert x[0] == (a + x)[|a|] == (b + y)[|a|] == b[|a|];
  }

  lemma NameCancels(a: Text, b: Text, x: Text, y: Text)
    requires IsPlain(a) && IsPlain(b) && IsRest(x) && IsRest(y) && a + x == b + y
    ensures a == b && x == y
  {
    if |a| < |b| {
      LongerNameHasComma(a, b, x, y);
    } else if |b| < |a| {
      LongerNameHasComma(b, a, y, x);
    } else {
      assert a == (a + x)[..|a|] && b == (b + y)[..|b|];
      SplitEqually(a, b, x, y);
    }
  }

  function JoinRest(names: seq<Text>): (rest: Text)
    requires names != []
    ensures IsRest(rest) && Join(names) == names[0] + rest
  {
    if |names| == 1 then [] else [COMMA_UNIT] + Join(names[1..])
  }

  lemma {:induction false} JoinCancels(a: seq<Text>, b: seq<Text>)
    requires (forall name :: name in a ==> IsPlain(name)) && (forall name :: name in b ==> IsPlain(name))
    requires Join(a) == Join(b)
    ensures a == b
  {
    if a == [] || b == [] {
      JoinIsEmpty(a);
      JoinIsEmpty(b);
    } else {
      hide IsPlain, Join;
      NameCancels(a[0], b[0], JoinRest(a), JoinRest(b));
      assert a == [a[0]] + a[1..] && b == [b[0]] + b[1..];
      if |a| == 1 || |b| == 1 {
        assert |a| == |b|;
      } else {
        SplitEqually([COMMA_UNIT], [COMMA_UNIT], Join(a[1..]), Join(b[1..]));
        JoinCancels(a[1..], b[1..]);
      }
    }
  }

  lemma JoinIsEmpty(names: seq<Text>)
    requires forall name :: name in names ==> IsPlain(name)
    ensures Join(names) == [] <==> names == []
  {
    if names != [] {
      assert names[0] in names;
    }
  }

  function Flag(agentInvocable: bool): (flag: Text)
    ensures |flag| == 1
    ensures flag[0] == if agentInvocable then 49 else 48
  {
    Ascii(if agentInvocable then "1" else "0")
  }

  /** A fixed head, a fixed middle and one last unit leave the part between head and middle determined. */
  lemma PartsCancel(v: Text, x: Text, w: Text, m: Text, y: Text, n: Text)
    requires |m| == |n| && v + x + w + m == v + y + w + n
    ensures x == y && m == n
  {
    var s := v + x + w + m;
    assert |x| == |y|;
    assert x == s[|v|..|v| + |x|] && y == s[|v|..|v| + |x|];
    assert m == s[|s| - |m|..] && n == s[|s| - |m|..];
  }

  lemma FingerprintCancels(a: Grant, b: Grant)
    requires (forall name :: name in a.capabilities ==> IsPlain(name))
    requires (forall name :: name in b.capabilities ==> IsPlain(name))
    requires FingerprintOf(a) == FingerprintOf(b)
    ensures a == b
  {
    hide IsPlain, Join, Ascii, Flag;
    PartsCancel(Ascii("v1;"), Join(a.capabilities), Ascii(";agent="), Flag(a.agentInvocable),
                Join(b.capabilities), Flag(b.agentInvocable));
    JoinCancels(a.capabilities, b.capabilities);
    assert Flag(a.agentInvocable)[0] == Flag(b.agentInvocable)[0];
  }

  /** Equal fingerprints mean equal sets of capabilities and equal agent flags, and the other way round. */
  lemma FingerprintIdentifies(a: Request, b: Request)
    ensures GrantFingerprint(a) == GrantFingerprint(b)
            <==> a.agentInvocable == b.agentInvocable && forall name :: AsksFor(a, name) <==> AsksFor(b, name)
  {
    hide IsKnown, NormalizeCapabilities, Ascending, FingerprintOf, IsPlain, AsksFor;
    SameNormalForm(a, b);
    NormalForm(a.capabilities);
    NormalForm(b.capabilities);
    forall name | name in NormalizeGrant(a).capabilities || name in NormalizeGrant(b).capabilities
      ensures IsPlain(name)
    {
      KnownNames(name);
      CapabilitiesArePlain(name);
    }
    if GrantFingerprint(a) == GrantFingerprint(b) {
      FingerprintCancels(NormalizeGrant(a), NormalizeGrant(b));
    }
  }
}
