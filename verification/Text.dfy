/** Python's str.strip() and str.rstrip("/"). */
module Text {

  predicate IsSpace(c: char) {
    var u := c as int;
    || 9 <= u <= 13 || 28 <= u <= 32 || u == 0x85 || u == 0xa0 || u == 0x1680
    || 0x2000 <= u <= 0x200a || u == 0x2028 || u == 0x2029 || u == 0x202f || u == 0x205f || u == 0x3000
  }

  /** Without white space at either end. */
  function Strip(s: string): string {
    if s != [] && IsSpace(s[0]) then Strip(s[1..])
    else if s != [] && IsSpace(s[|s| - 1]) then Strip(s[..|s| - 1])
    else s
  }

  /** Without trailing slashes. */
  function RStrip(u: string): string {
    if u != [] && u[|u| - 1] == '/' then RStrip(u[..|u| - 1]) else u
  }

  predicate AllSpace(s: string, lo: nat, hi: nat)
    requires lo <= hi <= |s|
  {
    forall k :: lo <= k < hi ==> IsSpace(s[k])
  }

  /** t stands in s at i with nothing but white space around it. */
  predicate StandsAt(s: string, t: string, i: nat) {
    i + |t| <= |s| && s[i..i + |t|] == t && AllSpace(s, 0, i) && AllSpace(s, i + |t|, |s|)
  }

  /** Stripping removes white space from both ends, all of it, and nothing else. */
  lemma {:induction false} StripMeans(s: string)
    ensures exists i: nat :: StandsAt(s, Strip(s), i)
    ensures var t := Strip(s); t != "" ==> !IsSpace(t[0]) && !IsSpace(t[|t| - 1]) && t[0] !in " \t\n\r" && t[|t| - 1] !in " \t\n\r"
    decreases |s|
  {
    var t := Strip(s);
    if s != [] && IsSpace(s[0]) {
      StripMeans(s[1..]);
      var i: nat :| StandsAt(s[1..], t, i);
      assert s[1..][i..i + |t|] == s[i + 1..i + 1 + |t|];
      assert forall k :: 1 <= k < |s| ==> s[k] == s[1..][k - 1];
      assert StandsAt(s, t, i + 1);
    } else if s != [] && IsSpace(s[|s| - 1]) {
      StripMeans(s[..|s| - 1]);
      var i: nat :| StandsAt(s[..|s| - 1], t, i);
      assert s[..|s| - 1][i..i + |t|] == s[i..i + |t|];
      assert StandsAt(s, t, i);
    } else {
      assert s[0..|s|] == s;
      assert StandsAt(s, t, 0);
    }
  }

  /** Stripping slashes cuts off the slashes at the end, all of them, and nothing else. */
  lemma {:induction false} RStripMeans(u: string)
    ensures var t := RStrip(u);
      && |t| <= |u| && u[..|t|] == t
      && (forall k :: |t| <= k < |u| ==> u[k] == '/')
      && (t != "" ==> t[|t| - 1] != '/')
  {
    if u != [] && u[|u| - 1] == '/' {
      RStripMeans(u[..|u| - 1]);
    }
  }
}
