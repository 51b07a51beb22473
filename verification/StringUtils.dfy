/** trim of src/common/stringutils.cpp. */
module StringUtils {

  const BLANKS: string := " \t\r\n"

  predicate AllIn(s: string, chars: string) { forall c | c in s :: c in chars }

  /** find_first_not_of; the length stands for npos. */
  function FirstNotOf(s: string, chars: string): (i: nat)
    ensures i <= |s| && AllIn(s[..i], chars) && (i < |s| ==> s[i] !in chars)
  {
    if s == "" || s[0] !in chars then 0
    else
      var k := FirstNotOf(s[1..], chars);
      assert s[..k + 1] == [s[0]] + s[1..][..k];
      1 + k
  }

  /** One past find_last_not_of; 0 stands for npos. */
  function EndNotOf(s: string, chars: string): (i: nat)
    ensures i <= |s| && AllIn(s[i..], chars) && (i > 0 ==> s[i - 1] !in chars)
  {
    if s == "" || s[|s| - 1] !in chars then |s|
    else
      var k := EndNotOf(s[..|s| - 1], chars);
      assert s[k..] == s[..|s| - 1][k..] + [s[|s| - 1]];
      k
  }

  /** Both npos cases fall back to the ends of the string. */
  function Trim(s: string, chars: string): string {
    var start, end := FirstNotOf(s, chars), EndNotOf(s, chars);
    var from := if start == |s| then 0 else start;
    var to := if end == 0 then |s| else end;
    if from <= to then s[from..to] else ""
  }

  /** Nothing to cut off at either end. */
  predicate Trimmed(s: string, chars: string) { s != "" && s[0] !in chars && s[|s| - 1] !in chars }

  /** trim cuts exactly the surrounding characters off, provided anything else is there; a string
      of nothing but such characters comes back as it is. */
  lemma {:induction false} TrimMeaning(s: string, chars: string)
    ensures AllIn(s, chars) <==> !Trimmed(Trim(s, chars), chars)
    ensures AllIn(s, chars) ==> Trim(s, chars) == s
    ensures !AllIn(s, chars) ==>
              exists a, b | 0 <= a < b <= |s| ::
                Trim(s, chars) == s[a..b] && AllIn(s[..a], chars) && AllIn(s[b..], chars)
  {
    var start, end := FirstNotOf(s, chars), EndNotOf(s, chars);
    if AllIn(s, chars) {
      assert start == |s| && end == 0;
      assert s[0..|s|] == s;
    } else {
      CutEnds(s, chars);
      assert Trim(s, chars) == s[start..end];
    }
  }

  lemma CutEnds(s: string, chars: string)
    requires !AllIn(s, chars)
    ensures FirstNotOf(s, chars) < EndNotOf(s, chars)
  {
    var start, end := FirstNotOf(s, chars), EndNotOf(s, chars);
    assert s[..|s|] == s && s[0..] == s;
    forall i | end <= i < |s| ensures s[i] in chars { assert s[end..][i - end] == s[i]; }
  }

  lemma TrimNothing(s: string, chars: string)
    requires s == "" || Trimmed(s, chars)
    ensures Trim(s, chars) == s
  {
    if s != "" {
      assert FirstNotOf(s, chars) == 0 && EndNotOf(s, chars) == |s|;
      assert s[0..|s|] == s;
    }
  }

  lemma {:induction false} FirstNotOfConcat(a: string, s: string, chars: string)
    requires AllIn(a, chars) && s != "" && s[0] !in chars
    ensures FirstNotOf(a + s, chars) == |a|
  {
    if a == "" {
      assert a + s == s;
    } else {
      assert (a + s)[1..] == a[1..] + s;
      FirstNotOfConcat(a[1..], s, chars);
    }
  }

  lemma {:induction false} EndNotOfConcat(s: string, b: string, chars: string)
    requires AllIn(b, chars) && s != "" && s[|s| - 1] !in chars
    ensures EndNotOf(s + b, chars) == |s|
  {
    if b == "" {
      assert s + b == s;
    } else {
      assert (s + b)[..|s + b| - 1] == s + b[..|b| - 1];
      EndNotOfConcat(s, b[..|b| - 1], chars);
    }
  }

  /** Wrapping a trimmed string in trim characters is undone. */
  lemma TrimWrapped(a: string, s: string, b: string, chars: string)
    requires AllIn(a, chars) && AllIn(b, chars) && Trimmed(s, chars)
    ensures Trim(a + s + b, chars) == s
  {
    var t := a + s + b;
    assert t == a + (s + b);
    FirstNotOfConcat(a, s + b, chars);
    EndNotOfConcat(a + s, b, chars);
    assert t[|a|..|a + s|] == s;
  }
}
