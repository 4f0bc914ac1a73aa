/** The first and the last place of a character in a string. */
module Strings {
  import opened Prelude

  function IndexOf(s: string, c: char): (i: Option<nat>)
    ensures i.None? <==> c !in s
    ensures i.Some? ==> i.value < |s| && s[i.value] == c && c !in s[..i.value]
  {
    if s == [] then None
    else if s[0] == c then Some(0)
    else
      assert s == [s[0]] + s[1..];
      match IndexOf(s[1..], c)
      case None => None
      case Some(i) =>
        assert s[..i + 1] == [s[0]] + s[1..][..i];
        Some(i + 1)
  }

  function LastIndexOf(s: string, c: char): (i: Option<nat>)
    ensures i.None? <==> c !in s
    ensures i.Some? ==> i.value < |s| && s[i.value] == c && c !in s[i.value + 1..]
  {
    if s == [] then None
    else
      var last := |s| - 1;
      assert s == s[..last] + [s[last]];
      if s[last] == c then Some(last)
      else
        match LastIndexOf(s[..last], c)
        case None => None
        case Some(i) =>
          assert s[i + 1..] == s[..last][i + 1..] + [s[last]];
          Some(i)
  }

  lemma FirstMarkIsFound(mark: char, front: string, back: string)
    requires mark !in front
    ensures IndexOf(front + [mark] + back, mark) == Some(|front|)
  {
    var s := front + [mark] + back;
    assert s[|front|] == mark;
  }

  lemma LastMarkIsFound(mark: char, front: string, back: string)
    requires mark !in back
    ensures LastIndexOf(front + [mark] + back, mark) == Some(|front|)
  {
    hide LastIndexOf;
    var s := front + [mark] + back;
    assert s[|front|] == mark;
    assert s[|front| + 1..] == back;
    LastIsUnique(s, mark, LastIndexOf(s, mark).value, |front|);
  }

  lemma LastIsUnique(s: string, mark: char, i: nat, j: nat)
    requires i < |s| && s[i] == mark && mark !in s[i + 1..]
    requires j < |s| && s[j] == mark && mark !in s[j + 1..]
    ensures i == j
  {
    NoneLater(s, mark, i, j);
    NoneLater(s, mark, j, i);
  }

  lemma NoneLater(s: string, mark: char, i: nat, j: nat)
    requires i < |s| && mark !in s[i + 1..] && j < |s| && s[j] == mark
    ensures j <= i
  {
    assert forall k :: i < k < |s| ==> s[k] == s[i + 1..][k - i - 1];
  }
}
