/** Stripping white space off both ends of a string, for any notion of white space. */
module Text {
  function StripLeft(space: char -> bool, s: string): string {
    if s != "" && space(s[0]) then StripLeft(space, s[1..]) else s
  }

  function StripRight(space: char -> bool, s: string): string {
    if s != "" && space(s[|s| - 1]) then StripRight(space, s[..|s| - 1]) else s
  }

  function Strip(space: char -> bool, s: string): string { StripRight(space, StripLeft(space, s)) }

  predicate Blank(space: char -> bool, s: string) { forall i :: 0 <= i < |s| ==> space(s[i]) }

  /** Empty, or white space at neither end. */
  predicate Tight(space: char -> bool, s: string) { s == "" || (!space(s[0]) && !space(s[|s| - 1])) }

  /** White space, the core, white space. */
  predicate Padded(space: char -> bool, s: string, pre: string, core: string, post: string) {
    s == pre + core + post && Blank(space, pre) && Blank(space, post)
  }

  lemma {:induction false} LeftBlank(space: char -> bool, pre: string, core: string)
    requires Blank(space, pre) && (core == "" || !space(core[0]))
    ensures StripLeft(space, pre + core) == core
    decreases |pre|
  {
    if pre == "" {
      assert pre + core == core;
    } else {
      assert (pre + core)[1..] == pre[1..] + core;
      LeftBlank(space, pre[1..], core);
    }
  }

  lemma {:induction false} RightBlank(space: char -> bool, core: string, post: string)
    requires Blank(space, post) && (core == "" || !space(core[|core| - 1]))
    ensures StripRight(space, core + post) == core
    decreases |post|
  {
    if post == "" {
      assert core + post == core;
    } else {
      assert (core + post)[..|core + post| - 1] == core + post[..|post| - 1];
      RightBlank(space, core, post[..|post| - 1]);
    }
  }

  lemma {:induction false} LeftParts(space: char -> bool, s: string) returns (pre: string)
    ensures Blank(space, pre) && s == pre + StripLeft(space, s)
    ensures StripLeft(space, s) == "" || !space(StripLeft(space, s)[0])
    decreases |s|
  {
    pre := "";
    if s != "" && space(s[0]) {
      var more := LeftParts(space, s[1..]);
      pre := [s[0]] + more;
    }
  }

  lemma {:induction false} RightParts(space: char -> bool, s: string) returns (post: string)
    ensures Blank(space, post) && s == StripRight(space, s) + post
    ensures StripRight(space, s) == "" || !space(StripRight(space, s)[|StripRight(space, s)| - 1])
    decreases |s|
  {
    post := "";
    if s != "" && space(s[|s| - 1]) {
      var more := RightParts(space, s[..|s| - 1]);
      post := more + [s[|s| - 1]];
    }
  }

  /** Stripping takes off the white space at both ends and nothing else. */
  lemma StripExactly(space: char -> bool, s: string, core: string)
    ensures Strip(space, s) == core <==> Tight(space, core) && exists pre, post :: Padded(space, s, pre, core, post)
  {
    if Strip(space, s) == core {
      StripParts(space, s);
    }
    if Tight(space, core) && exists pre, post :: Padded(space, s, pre, core, post) {
      var pre, post :| Padded(space, s, pre, core, post);
      PaddedStrips(space, s, pre, core, post);
    }
  }

  lemma StripParts(space: char -> bool, s: string)
    ensures Tight(space, Strip(space, s)) && exists pre, post :: Padded(space, s, pre, Strip(space, s), post)
  {
    var pre := LeftParts(space, s);
    var rest := StripLeft(space, s);
    var post := RightParts(space, rest);
    assert s == pre + (Strip(space, s) + post);
    assert Padded(space, s, pre, Strip(space, s), post);
    assert Strip(space, s) != "" ==> Strip(space, s)[0] == rest[0];
  }

  lemma PaddedStrips(space: char -> bool, s: string, pre: string, core: string, post: string)
    requires Padded(space, s, pre, core, post) && Tight(space, core)
    ensures Strip(space, s) == core
  {
    if core == "" {
      assert s == (pre + post) + "";
      LeftBlank(space, pre + post, "");
      assert "" + "" == "";
    } else {
      assert s == pre + (core + post);
      LeftBlank(space, pre, core + post);
      RightBlank(space, core, post);
    }
  }
}
