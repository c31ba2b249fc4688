/** The string helpers that the signature header and the slugs are built from. */
module Text {
  /** Unicode white space, as `strings.TrimSpace` cuts it. */
  predicate IsSpace(c: char) {
    var n := c as int;
    9 <= n <= 13 || n == 0x20 || n == 0x85 || n == 0xA0 || n == 0x1680 || 0x2000 <= n <= 0x200A
    || n == 0x2028 || n == 0x2029 || n == 0x202F || n == 0x205F || n == 0x3000
  }

  function TrimLeft(s: string, cut: char -> bool): string {
    if s != "" && cut(s[0]) then TrimLeft(s[1..], cut) else s
  }

  function TrimRight(s: string, cut: char -> bool): string {
    if s != "" && cut(s[|s| - 1]) then TrimRight(s[..|s| - 1], cut) else s
  }

  function TrimSpace(s: string): string { TrimRight(TrimLeft(s, IsSpace), IsSpace) }

  lemma {:induction false} TrimRightCuts(s: string, cut: char -> bool)
    ensures var t := TrimRight(s, cut);
            t <= s && (t == "" || !cut(t[|t| - 1])) && forall i :: |t| <= i < |s| ==> cut(s[i])
    decreases |s|
  {
    if s != "" && cut(s[|s| - 1]) {
      TrimRightCuts(s[..|s| - 1], cut);
    }
  }

  lemma {:induction false} TrimLeftCuts(s: string, cut: char -> bool)
    ensures var t := TrimLeft(s, cut);
            && |t| <= |s| && s == s[..|s| - |t|] + t && (t == "" || !cut(t[0]))
            && forall i :: 0 <= i < |s| - |t| ==> cut(s[i])
    decreases |s|
  {
    if s != "" && cut(s[0]) {
      TrimLeftCuts(s[1..], cut);
      var n := |s| - |TrimLeft(s, cut)|;
      assert s[..n] == [s[0]] + s[1..][..n - 1];
      assert s == [s[0]] + s[1..];
      assert forall i :: 1 <= i < n ==> s[i] == s[1..][i - 1];
    }
  }

  /** Trimming takes away white space at both ends, all of it and nothing else. */
  lemma TrimSpaceIsTheMiddle(s: string) returns (left: string, right: string)
    ensures var t := TrimSpace(s);
            s == left + t + right && (t != "" ==> !IsSpace(t[0]) && !IsSpace(t[|t| - 1]))
    ensures forall c :: c in left || c in right ==> IsSpace(c)
    ensures IsSpace(' ') && IsSpace('\t') && IsSpace('\n') && IsSpace('\r')
    ensures forall c :: '!' <= c <= '~' ==> !IsSpace(c)
  {
    var u := TrimLeft(s, IsSpace);
    var t := TrimSpace(s);
    TrimLeftCuts(s, IsSpace);
    TrimRightCuts(u, IsSpace);
    left, right := s[..|s| - |u|], u[|t|..];
  }

  lemma TrimSpaceKeeps(s: string)
    requires s == "" || (!IsSpace(s[0]) && !IsSpace(s[|s| - 1]))
    ensures TrimSpace(s) == s
  {
  }
}
