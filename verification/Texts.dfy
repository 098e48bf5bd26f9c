/** Space in strings: what Python's `strip` removes, for the space characters that occur in practice. */
module Texts {

  predicate Space(c: char) {
    c in {' ', '\t', '\n', '\r'}
  }

  predicate Blank(s: string) {
    forall i :: 0 <= i < |s| ==> Space(s[i])
  }

  function StripLeft(s: string): string {
    if s != "" && Space(s[0]) then StripLeft(s[1..]) else s
  }

  function StripRight(s: string): string {
    if s != "" && Space(s[|s| - 1]) then StripRight(s[..|s| - 1]) else s
  }

  function Strip(s: string): string {
    StripRight(StripLeft(s))
  }

  /** A non-empty string without leading or trailing space. */
  predicate Trimmed(s: string) {
    s != "" && !Space(s[0]) && !Space(s[|s| - 1])
  }

  lemma {:induction false} StripLeftTrims(s: string)
    ensures |StripLeft(s)| <= |s| && (StripLeft(s) == "" || !Space(StripLeft(s)[0]))
  {
    if s != "" && Space(s[0]) {
      StripLeftTrims(s[1..]);
    }
  }

  lemma {:induction false} StripRightTrims(s: string)
    requires s == "" || !Space(s[0])
    ensures |StripRight(s)| <= |s| && (StripRight(s) == "" || Trimmed(StripRight(s)))
  {
    if s != "" && Space(s[|s| - 1]) {
      StripRightTrims(s[..|s| - 1]);
    }
  }

  /** Stripping leaves nothing or a trimmed string, never a longer one. */
  lemma StripTrims(s: string)
    ensures |Strip(s)| <= |s| && (Strip(s) == "" || Trimmed(Strip(s)))
  {
    StripLeftTrims(s);
    StripRightTrims(StripLeft(s));
  }

  /** A text is what stripping leaves of it, between blank texts. */
  lemma StripKeeps(s: string)
    ensures exists front: string, back: string :: s == front + Strip(s) + back && Blank(front) && Blank(back)
  {
    var front := LeftStripped(s);
    var back := RightStripped(StripLeft(s));
    assert s == front + Strip(s) + back;
  }

  lemma {:induction false} LeftStripped(s: string) returns (front: string)
    ensures Blank(front) && s == front + StripLeft(s)
  {
    front := "";
    if s != "" && Space(s[0]) {
      var more := LeftStripped(s[1..]);
      front := [s[0]] + more;
      assert s == [s[0]] + s[1..];
    }
  }

  lemma {:induction false} RightStripped(s: string) returns (back: string)
    ensures Blank(back) && s == StripRight(s) + back
  {
    back := "";
    if s != "" && Space(s[|s| - 1]) {
      var more := RightStripped(s[..|s| - 1]);
      back := more + [s[|s| - 1]];
      assert s == s[..|s| - 1] + [s[|s| - 1]];
    }
  }
}
