/** Working directories in a plan: relative texts, how they are resolved, and which of them the reader admits. */
module PlanPath {

  // ---------------------------------------------------------------- splitting and joining

  function FirstSlash(s: string): (i: nat)
    ensures i <= |s| && (i < |s| ==> s[i] == '/')
  {
    if s == "" || s[0] == '/' then 0 else 1 + FirstSlash(s[1..])
  }

  /** split("/"). */
  function Segments(s: string): (r: seq<string>)
    ensures |r| > 0
    decreases |s|
  {
    var i := FirstSlash(s);
    if i == |s| then [s] else [s[..i]] + Segments(s[i + 1..])
  }

  function Join(segments: seq<string>): string
    requires segments != []
  {
    if |segments| == 1 then segments[0] else segments[0] + "/" + Join(segments[1..])
  }

  predicate SlashFree(segments: seq<string>) { forall i | 0 <= i < |segments| :: '/' !in segments[i] }

  lemma {:induction false} FirstSlashAfter(a: string, rest: string)
    requires '/' !in a && (rest == "" || rest[0] == '/')
    ensures FirstSlash(a + rest) == |a|
  {
    if a == "" {
      assert a + rest == rest;
    } else {
      assert (a + rest)[1..] == a[1..] + rest;
      FirstSlashAfter(a[1..], rest);
    }
  }

  lemma {:induction false} SegmentsOfJoin(segments: seq<string>)
    requires segments != [] && SlashFree(segments)
    ensures Segments(Join(segments)) == segments
  {
    var a := segments[0];
    if |segments| == 1 {
      FirstSlashAfter(a, "");
      assert a + "" == a;
    } else {
      var rest := segments[1..];
      SegmentsOfJoin(rest);
      var s := a + "/" + Join(rest);
      assert s == a + ("/" + Join(rest));
      FirstSlashAfter(a, "/" + Join(rest));
      assert s[..|a|] == a && s[|a| + 1..] == Join(rest);
    }
  }

  lemma {:induction false} JoinOfSegments(s: string)
    ensures SlashFree(Segments(s)) && Join(Segments(s)) == s
    decreases |s|
  {
    var i := FirstSlash(s);
    NoSlashBefore(s);
    if i < |s| {
      JoinOfSegments(s[i + 1..]);
      assert Segments(s)[1..] == Segments(s[i + 1..]);
      assert s == s[..i] + "/" + s[i + 1..];
    } else {
      assert s[..i] == s;
    }
  }

  lemma {:induction false} NoSlashBefore(s: string)
    ensures '/' !in s[..FirstSlash(s)]
  {
    if s != "" && s[0] != '/' {
      NoSlashBefore(s[1..]);
      var i := FirstSlash(s);
      assert s[..i] == [s[0]] + s[1..][..i - 1];
    }
  }

  // ---------------------------------------------------------------- resolving against the repository root

  /** Walks down the segments from a directory given by its own segments; ".." leads up, out of the root if need be. */
  function Walk(segments: seq<string>, at: seq<string>): seq<string> {
    if segments == [] then at
    else
      var s, rest := segments[0], segments[1..];
      if s == "" || s == "." then Walk(rest, at)
      else if s == ".." && at != [] && at[|at| - 1] != ".." then Walk(rest, at[..|at| - 1])
      else Walk(rest, at + [s])
  }

  /** path.relative(root, path.resolve(root, text)), with "." for the root itself. */
  function Canonical(text: string): string {
    var at := Walk(Segments(text), []);
    if at == [] then "." else Join(at)
  }

  /** No empty or single-dot segment, and double dots only in front. */
  predicate Straight(segments: seq<string>) {
    forall i | 0 <= i < |segments| ::
      '/' !in segments[i] && segments[i] != "" && segments[i] != "."
      && (segments[i] == ".." && i > 0 ==> segments[i - 1] == "..")
  }

  predicate IsCanonical(text: string) { text == "." || Straight(Segments(text)) }

  lemma {:induction false} WalkIsStraight(segments: seq<string>, at: seq<string>)
    requires SlashFree(segments) && Straight(at)
    ensures Straight(Walk(segments, at))
  {
    if segments != [] {
      var s, rest := segments[0], segments[1..];
      assert SlashFree(rest);
      if s == "" || s == "." {
        WalkIsStraight(rest, at);
      } else if s == ".." && at != [] && at[|at| - 1] != ".." {
        WalkIsStraight(rest, at[..|at| - 1]);
      } else {
        assert Straight(at + [s]);
        WalkIsStraight(rest, at + [s]);
      }
    }
  }

  lemma {:induction false} StraightWalk(segments: seq<string>, at: seq<string>)
    requires Straight(at + segments)
    ensures Walk(segments, at) == at + segments
  {
    if segments == [] {
      assert at + segments == at;
    } else {
      var all, s, rest := at + segments, segments[0], segments[1..];
      assert all[|at|] == s && (at != [] ==> all[|at| - 1] == at[|at| - 1]);
      assert at + [s] + rest == all;
      StraightWalk(rest, at + [s]);
    }
  }

  /** Resolving gives a canonical text, and changes a text exactly when it is not canonical already. */
  lemma {:induction false} CanonicalIff(text: string)
    ensures IsCanonical(Canonical(text))
    ensures Canonical(text) == text <==> IsCanonical(text)
  {
    hide Walk, Join, Segments, Straight;
    var at := Walk(Segments(text), []);
    JoinOfSegments(text);
    assert Straight([]) by { NothingIsStraight(); }
    WalkIsStraight(Segments(text), []);
    if at != [] {
      StraightIsSlashFree(at);
      SegmentsOfJoin(at);
    }
    RootIsCanonical();
    if Straight(Segments(text)) {
      assert [] + Segments(text) == Segments(text);
      StraightWalk(Segments(text), []);
    }
  }

  lemma {:induction false} NothingIsStraight()
    ensures Straight([])
  {
  }

  lemma {:induction false} StraightIsSlashFree(segments: seq<string>)
    requires Straight(segments)
    ensures SlashFree(segments)
  {
  }

  lemma {:induction false} RootIsCanonical()
    ensures Canonical(".") == "."
  {
    FirstSlashAfter(".", "");
    assert "." + "" == ".";
    assert Segments(".") == ["."];
    assert Walk(["."], []) == Walk([], []) by { assert ["."][1..] == []; }
  }

  lemma {:induction false} CanonicalIsStable(text: string)
    ensures Canonical(Canonical(text)) == Canonical(text)
  {
    hide Canonical, IsCanonical;
    CanonicalIff(text);
    CanonicalIff(Canonical(text));
  }

  // ---------------------------------------------------------------- what the reader admits

  /** replaceAll("\\", "/"). */
  function Slashed(s: string): string {
    seq(|s|, i requires 0 <= i < |s| => if s[i] == '\\' then '/' else s[i])
  }

  function DropDotSlash(s: string): string { if |s| >= 2 && s[..2] == "./" then s[2..] else s }

  predicate LeadsUp(s: string, i: nat) { i + 3 <= |s| && s[i] == '.' && s[i + 1] == '.' && s[i + 2] == '/' }

  /** normalizeInventoryPath does not throw. It only tests its argument here; the text itself is kept. */
  predicate InventoryPath(text: string) {
    var n := DropDotSlash(Slashed(text));
    n != "" && n[0] != '/'
    && (forall i | 0 <= i < |n| :: !LeadsUp(n, i))
    && forall i | 0 <= i < |Segments(n)| :: Segments(n)[i] != "" && Segments(n)[i] != "."
  }

  predicate AdmittedCwd(text: string) { text == "." || InventoryPath(text) }

  lemma {:induction false} PlainSegment(a: string)
    requires '/' !in a
    ensures Segments(a) == [a]
  {
    FirstSlashAfter(a, "");
    assert a + "" == a;
  }

  lemma {:induction false} TwoSegments(a: string, b: string)
    requires '/' !in a && '/' !in b
    ensures Segments(a + "/" + b) == [a, b]
  {
    assert [a, b][1..] == [b];
    assert Join([a, b]) == a + "/" + b;
    SegmentsOfJoin([a, b]);
  }

  /** "./a" passes the reader's test and resolves to "a". */
  lemma {:induction false} DotSlashResolves()
    ensures AdmittedCwd("./a") && Canonical("./a") == "a"
  {
    hide Segments;
    var text := "./a";
    assert text == "." + "/" + "a";
    TwoSegments(".", "a");
    PlainSegment("a");
    assert Slashed(text) == text && text[..2] == "./" && text[2..] == "a";
    assert [".", "a"][1..] == ["a"] && ["a"][1..] == [];
    assert Walk(["a"], []) == Walk([], ["a"]);
    assert Walk([".", "a"], []) == Walk(["a"], []);
  }

  /** "a/.." passes it too, and resolves to the root. */
  lemma {:induction false} TrailingUpResolves()
    ensures AdmittedCwd("a/..") && Canonical("a/..") == "."
  {
    hide Segments;
    var text := "a/..";
    assert text == "a" + "/" + "..";
    TwoSegments("a", "..");
    assert Slashed(text) == text && text[..2] == "a/";
    assert ["a", ".."][1..] == [".."] && [".."][1..] == [] && ["a"][..0] == [];
    assert Walk([".."], ["a"]) == Walk([], []);
    assert Walk(["a", ".."], []) == Walk([".."], ["a"]);
  }
}
