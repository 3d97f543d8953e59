/** Which paths an archive leaves out, read off the path itself. */
module ZipPaths {
  import opened Text
  import opened ZipArchive

  predicate IsSlash(c: char) {
    c == '/' || c == '\\'
  }

  /** From i to j the path runs between two slashes, or its ends, without a slash of either kind. */
  predicate Segment(path: string, i: int, j: int) {
    && 0 <= i <= j <= |path|
    && (i == 0 || IsSlash(path[i - 1]))
    && (j == |path| || IsSlash(path[j]))
    && forall k :: i <= k < j ==> !IsSlash(path[k])
  }

  ghost predicate HasSegment(path: string, part: string) {
    exists i, j :: Segment(path, i, j) && path[i..j] == part
  }

  /** A segment with a slash before it. */
  ghost predicate HasLaterSegment(path: string, part: string) {
    exists i, j :: i > 0 && Segment(path, i, j) && path[i..j] == part
  }

  /** Behind the first character the segments are those of the rest. */
  lemma SegmentsMove(path: string, i: int, j: int)
    requires path != [] && 0 <= i <= j < |path|
    ensures i > 0 || IsSlash(path[0]) ==> (Segment(path, i + 1, j + 1) <==> Segment(path[1..], i, j))
    ensures i == 0 && !IsSlash(path[0]) ==> (Segment(path, 0, j + 1) <==> Segment(path[1..], 0, j))
    ensures path[i + 1..j + 1] == path[1..][i..j]
  {
    var rest := path[1..];
    assert forall k :: 0 <= k < |rest| ==> rest[k] == path[k + 1];
    if Segment(rest, i, j) {
      assert forall k :: i + 1 <= k < j + 1 ==> path[k] == rest[k - 1];
    }
  }

  /** The first part is the first segment. */
  lemma {:induction false} FirstPart(path: string) returns (e: int)
    requires '\\' !in path
    ensures Segment(path, 0, e) && Split(path)[0] == path[..e]
  {
    if path == [] || path[0] == '/' {
      e := 0;
    } else {
      var e' := FirstPart(path[1..]);
      SegmentsMove(path, 0, e');
      assert !IsSlash(path[0]) by { assert path[0] in path; }
      e := e' + 1;
      assert path[..e] == [path[0]] + path[1..][..e'];
    }
  }

  lemma FirstIsUnique(path: string, d: int, e: int)
    requires Segment(path, 0, d) && Segment(path, 0, e)
    ensures d == e
  {
  }

  lemma {:induction false} SplitOnce(path: string)
    ensures |Split(path)| == 1 <==> '/' !in path
    ensures |Split(path)| == 1 ==> Split(path) == [path]
  {
    if path != [] {
      SplitOnce(path[1..]);
      assert path == [path[0]] + path[1..];
    }
  }

  /** The last part is the last segment. */
  lemma {:induction false} LastPart(path: string) returns (i: int)
    requires '\\' !in path
    ensures Segment(path, i, |path|) && Split(path)[|Split(path)| - 1] == path[i..]
  {
    SplitOnce(path);
    if '/' !in path {
      i := 0;
      assert forall k :: 0 <= k < |path| ==> path[k] in path;
    } else {
      assert path == [path[0]] + path[1..];
      var i' := LastPart(path[1..]);
      SplitOnce(path[1..]);
      SegmentsMove(path, i', |path| - 1);
      i := i' + 1;
      assert path[i..|path|] == path[i..];
      if path[0] != '/' {
        var k :| 0 <= k < |path[1..]| && path[1..][k] == '/';
      }
    }
  }

  /** The later segments are those of the rest, all of them if a slash leads. */
  lemma LaterMoves(path: string, part: string)
    requires path != []
    ensures HasLaterSegment(path, part)
        <==> if IsSlash(path[0]) then HasSegment(path[1..], part) else HasLaterSegment(path[1..], part)
  {
    var rest := path[1..];
    hide Segment;
    if HasLaterSegment(path, part) {
      var i, j :| i > 0 && Segment(path, i, j) && path[i..j] == part;
      SegmentWithin(path, i, j);
      SegmentsMove(path, i - 1, j - 1);
      if i == 1 { SlashBefore(path); }
    }
    if HasSegment(rest, part) {
      var i, j :| Segment(rest, i, j) && rest[i..j] == part
                  && (HasLaterSegment(rest, part) && !IsSlash(path[0]) ==> i > 0);
      SegmentWithin(rest, i, j);
      SegmentsMove(path, i, j);
    }
  }

  lemma SegmentWithin(path: string, i: int, j: int)
    requires Segment(path, i, j)
    ensures 0 <= i <= j <= |path|
  {
  }

  lemma SlashBefore(path: string)
    ensures forall j :: Segment(path, 1, j) ==> path != [] && IsSlash(path[0])
  {
  }

  /** The parts behind the first are the later segments. */
  lemma {:induction false} LaterParts(path: string, part: string)
    requires '\\' !in path
    ensures part in Split(path)[1..] <==> HasLaterSegment(path, part)
    decreases |path|, 0
  {
    if path == [] {
    } else {
      var rest := path[1..];
      assert path[0] in path && forall c :: c in rest ==> c in path;
      LaterMoves(path, part);
      if path[0] == '/' {
        assert Split(path)[1..] == Split(rest);
        PartsAreSegments(rest, part);
      } else {
        assert Split(path)[1..] == Split(rest)[1..];
        LaterParts(rest, part);
      }
    }
  }

  /** The parts are the segments. */
  lemma {:induction false} PartsAreSegments(path: string, part: string)
    requires '\\' !in path
    ensures part in Split(path) <==> HasSegment(path, part)
    decreases |path|, 1
  {
    LaterParts(path, part);
    var e := FirstPart(path);
    assert Split(path) == [Split(path)[0]] + Split(path)[1..];
    assert path[0..e] == path[..e];
    if HasSegment(path, part) {
      var i, j :| Segment(path, i, j) && path[i..j] == part;
      if i == 0 { FirstIsUnique(path, e, j); }
    }
  }

  /** Turning the slashes around leaves the segments. */
  lemma SegmentsStay(path: string, i: int, j: int)
    ensures Segment(ForwardSlashes(path), i, j) <==> Segment(path, i, j)
    ensures Segment(path, i, j) ==> ForwardSlashes(path)[i..j] == path[i..j]
  {
    var turned := ForwardSlashes(path);
    assert forall k :: 0 <= k < |path| ==> (IsSlash(turned[k]) <==> IsSlash(path[k]));
    assert forall k :: 0 <= k < |path| && !IsSlash(path[k]) ==> turned[k] == path[k];
  }

  lemma NoBackslash(path: string)
    ensures '\\' !in ForwardSlashes(path)
  {
  }

  // ----- Excluded paths -----

  /** The word stands at this place of the text. */
  predicate Spells(text: string, at: int, word: string) {
    0 <= at && at + |word| <= |text| && text[at..at + |word|] == word
  }

  /** A name that environments use, unless it ends as an example does. */
  ghost predicate NamesEnvironment(part: string) {
    && !Spells(part, |part| - 12, ".env.example")
    && (|| part in {".envrc", "env", ".env"}
        || Spells(part, 0, ".envrc.") || Spells(part, 0, "env.")
        || Spells(part, |part| - 4, ".env")
        || exists k :: Spells(part, k, ".env."))
  }

  lemma IncludesIff(text: string, word: string)
    ensures Includes(text, word) <==> exists k :: Spells(text, k, word)
  {
    if Includes(text, word) {
      var k :| 0 <= k <= |text| - |word| && text[k..][..|word|] == word;
      assert text[k..k + |word|] == text[k..][..|word|];
      assert Spells(text, k, word);
    }
    if k :| Spells(text, k, word) {
      assert text[k..][..|word|] == text[k..k + |word|];
    }
  }

  lemma EnvironmentIff(part: string)
    ensures EnvironmentLike(part) <==> NamesEnvironment(part)
  {
    IncludesIff(part, ".env.");
    EndsIff(part, ".env.example");
    EndsIff(part, ".env");
    StartsIff(part, ".envrc.");
    StartsIff(part, "env.");
    StartsIff(part, ".env.");
    assert |".env.example"| == 12 && |".env"| == 4;
    hide Includes, Ends, Spells;
  }

  lemma EndsIff(text: string, word: string)
    ensures Ends(text, word) <==> Spells(text, |text| - |word|, word)
  {
    if |word| <= |text| { assert text[|text| - |word|..|text|] == text[|text| - |word|..]; }
  }

  lemma StartsIff(text: string, word: string)
    ensures word <= text <==> Spells(text, 0, word)
  {
    if |word| <= |text| { assert text[0..|word|] == text[..|word|]; }
  }

  /** A directory of generated sources, at the front of the path or behind a slash. */
  ghost predicate InGenerated(path: string) {
    exists k :: && Spells(path, k, "src") && Spells(path, k + 4, "generated")
                && k + 14 <= |path| && IsSlash(path[k + 3]) && IsSlash(path[k + 13])
                && (k > 0 ==> IsSlash(path[k - 1]))
  }

  lemma SpellsTurned(path: string, at: int, word: string)
    requires forall c :: c in word ==> !IsSlash(c)
    ensures Spells(ForwardSlashes(path), at, word) <==> Spells(path, at, word)
  {
    var turned := ForwardSlashes(path);
    if 0 <= at && at + |word| <= |path| {
      forall k | 0 <= k < |word| ensures turned[at + k] == word[k] <==> path[at + k] == word[k] {
        assert word[k] in word;
      }
      assert turned[at..at + |word|] == word <==> forall k :: 0 <= k < |word| ==> turned[at + k] == word[k];
      assert path[at..at + |word|] == word <==> forall k :: 0 <= k < |word| ==> path[at + k] == word[k];
    }
  }

  /** The word with slashes stands where its two names stand between slashes. */
  lemma GeneratedAt(path: string, k: int)
    ensures Spells(ForwardSlashes(path), k, "src/generated/") <==>
            && Spells(path, k, "src") && Spells(path, k + 4, "generated")
            && k + 14 <= |path| && IsSlash(path[k + 3]) && IsSlash(path[k + 13])
  {
    var turned, word := ForwardSlashes(path), "src/generated/";
    SpellsTurned(path, k, "src");
    SpellsTurned(path, k + 4, "generated");
    assert word == "src" + ['/'] + "generated" + ['/'];
    if 0 <= k && k + 14 <= |path| {
      var here := turned[k..k + 14];
      assert here == turned[k..k + 3] + [turned[k + 3]] + turned[k + 4..k + 13] + [turned[k + 13]];
      assert word[..3] == "src" && word[3] == '/' && word[4..13] == "generated" && word[13] == '/';
    }
  }

  /** A word with one character more in front stands where that character stands before it. */
  lemma SpellsAfter(text: string, at: int, c: char, word: string)
    ensures Spells(text, at, [c] + word) <==> 0 <= at < |text| && text[at] == c && Spells(text, at + 1, word)
  {
    if 0 <= at && at + 1 + |word| <= |text| {
      assert text[at..at + 1 + |word|] == [text[at]] + text[at + 1..at + 1 + |word|];
      assert ([c] + word)[0] == c && ([c] + word)[1..] == word;
    }
  }

  lemma GeneratedIff(path: string)
    ensures Includes(ForwardSlashes(path), "/src/generated/") || "src/generated/" <= ForwardSlashes(path)
        <==> InGenerated(path)
  {
    var turned := ForwardSlashes(path);
    IncludesIff(turned, "/src/generated/");
    hide Includes;
    forall k: int ensures Spells(turned, k, "/src/generated/")
        <==> 0 <= k < |path| && turned[k] == '/' && Spells(turned, k + 1, "src/generated/")
    {
      assert "/src/generated/" == ['/'] + "src/generated/";
      SpellsAfter(turned, k, '/', "src/generated/");
    }
    StartsIff(turned, "src/generated/");
    forall k ensures Spells(turned, k, "src/generated/") <==>
            && Spells(path, k, "src") && Spells(path, k + 4, "generated")
            && k + 14 <= |path| && IsSlash(path[k + 3]) && IsSlash(path[k + 13])
    {
      GeneratedAt(path, k);
    }
    hide Spells;
    if InGenerated(path) {
      var k :| && Spells(path, k, "src") && Spells(path, k + 4, "generated")
                && k + 14 <= |path| && IsSlash(path[k + 3]) && IsSlash(path[k + 13])
                && (k > 0 ==> IsSlash(path[k - 1]));
      assert Spells(turned, k, "src/generated/");
      SpellsWithin(path, k, "src");
      if k > 0 { assert Spells(turned, k - 1, "/src/generated/"); }
    }
    if k :| Spells(turned, k, "/src/generated/") {
      assert Spells(turned, k + 1, "src/generated/");
    }
  }

  lemma SpellsWithin(text: string, at: int, word: string)
    requires Spells(text, at, word)
    ensures 0 <= at && at + |word| <= |text|
  {
  }

  /** The parts the program looks at are the segments of the path as it is written. */
  lemma PartsOf(path: string, part: string)
    ensures part in Split(ForwardSlashes(path)) <==> HasSegment(path, part)
  {
    NoBackslash(path);
    PartsAreSegments(ForwardSlashes(path), part);
    forall i, j ensures Segment(ForwardSlashes(path), i, j) <==> Segment(path, i, j) { SegmentsStay(path, i, j); }
    if HasSegment(path, part) {
      var i, j :| Segment(path, i, j) && path[i..j] == part;
      SegmentsStay(path, i, j);
    }
    if HasSegment(ForwardSlashes(path), part) {
      var i, j :| Segment(ForwardSlashes(path), i, j) && ForwardSlashes(path)[i..j] == part;
      SegmentsStay(path, i, j);
    }
  }

  /** The name is the last segment, and there is only one that ends the path. */
  lemma NameOf(path: string) returns (i: int)
    ensures Segment(path, i, |path|)
    ensures Split(ForwardSlashes(path))[|Split(ForwardSlashes(path))| - 1] == path[i..]
    ensures forall k :: Segment(path, k, |path|) ==> k == i
  {
    NoBackslash(path);
    i := LastPart(ForwardSlashes(path));
    SegmentsStay(path, i, |path|);
    assert path[i..|path|] == path[i..];
  }

  lemma SuffixIff(name: string)
    ensures (exists suffix :: suffix in EXCLUDED_SUFFIXES && Ends(name, suffix))
        <==> Spells(name, |name| - 4, ".map") || Spells(name, |name| - 12, ".tsbuildinfo")
  {
    assert EXCLUDED_SUFFIXES[0] == ".map" && EXCLUDED_SUFFIXES[1] == ".tsbuildinfo";
    assert |".map"| == 4 && |".tsbuildinfo"| == 12;
    EndsIff(name, ".map");
    EndsIff(name, ".tsbuildinfo");
    hide Ends, Spells;
  }

  /** A segment between slashes of either kind that is never taken in. */
  ghost predicate HasForbiddenSegment(path: string) {
    exists i, j :: Segment(path, i, j)
                   && (path[i..j] in {".git", ".cache", ".output", ".planning", ".vite", ".wrangler", "build",
                         "coverage", "dist", "node_modules", "playwright-report", "reference", "test-results",
                         "vitest-report"}
                       || NamesEnvironment(path[i..j]))
  }

  /** The last segment is one of two file names, or ends as a map or a build record does. */
  ghost predicate HasForbiddenName(path: string) {
    exists i :: Segment(path, i, |path|)
                && (path[i..] in {"cloudflare-env.d.ts", "worker-configuration.d.ts"}
                    || Spells(path[i..], |path[i..]| - 4, ".map")
                    || Spells(path[i..], |path[i..]| - 12, ".tsbuildinfo"))
  }

  lemma ForbiddenSegmentIff(path: string)
    ensures (exists part :: part in Split(ForwardSlashes(path))
                            && (part in EXCLUDED_DIRECTORIES || EnvironmentLike(part)))
        <==> HasForbiddenSegment(path)
  {
    hide EnvironmentLike, NamesEnvironment, Split, ForwardSlashes;
    if part :| part in Split(ForwardSlashes(path)) && (part in EXCLUDED_DIRECTORIES || EnvironmentLike(part)) {
      PartsOf(path, part);
      EnvironmentIff(part);
    }
    if HasForbiddenSegment(path) {
      var i, j :| Segment(path, i, j) && (path[i..j] in EXCLUDED_DIRECTORIES || NamesEnvironment(path[i..j]));
      assert HasSegment(path, path[i..j]);
      PartsOf(path, path[i..j]);
      EnvironmentIff(path[i..j]);
    }
  }

  lemma ForbiddenNameIff(path: string)
    ensures var parts := Split(ForwardSlashes(path));
            var name := parts[|parts| - 1];
            name in EXCLUDED_FILE_NAMES || (exists suffix :: suffix in EXCLUDED_SUFFIXES && Ends(name, suffix))
            <==> HasForbiddenName(path)
  {
    hide Segment, Split, ForwardSlashes, Spells;
    var i := NameOf(path);
    SegmentWithin(path, i, |path|);
    SuffixIff(path[i..]);
  }

  /**
   * A path is left out exactly when a segment of it is the name of a directory
   * that is never taken in or of an environment, when its last segment is one of
   * two file names or ends as a map or a build record does, or when it leads
   * through the generated sources.
   */
  lemma ExcludedIff(path: string)
    ensures IsExcludedPath(path) <==> HasForbiddenSegment(path) || HasForbiddenName(path) || InGenerated(path)
  {
    GeneratedIff(path);
    ForbiddenSegmentIff(path);
    ForbiddenNameIff(path);
    hide HasForbiddenSegment, HasForbiddenName, InGenerated, EnvironmentLike, Includes, Ends, Split, ForwardSlashes;
    assert Split(ForwardSlashes(path)) != [];
  }
}
