// Noise and sort-rule path patterns: literal segments, `*` for exactly one segment and
// `**` for any number of them.
module Glob {
  import opened Strings

  predicate Match(pat: seq<string>, path: seq<string>)
    decreases |pat|
  {
    if pat == [] then path == []
    else if pat[0] == "**" then exists i :: 0 <= i <= |path| && Match(pat[1..], path[i..])
    else path != [] && (pat[0] == "*" || pat[0] == path[0]) && Match(pat[1..], path[1..])
  }

  predicate PathMatches(pattern: string, path: seq<string>) { Match(Split(pattern), path) }

  predicate Noisy(patterns: seq<string>, path: seq<string>) {
    exists p :: p in patterns && PathMatches(p, path)
  }

  // ----- the declarative meaning --------------------------------------------------

  // What one pattern segment may stand for.
  ghost predicate Covers(seg: string, slice: seq<string>) {
    seg == "**" || (|slice| == 1 && (seg == "*" || seg == slice[0]))
  }

  ghost function Concat(slices: seq<seq<string>>): seq<string> {
    if slices == [] then [] else slices[0] + Concat(slices[1..])
  }

  // The path is cut into consecutive slices, one for each segment of the pattern.
  ghost predicate Assigns(pat: seq<string>, path: seq<string>, slices: seq<seq<string>>) {
    |slices| == |pat| && Concat(slices) == path && forall i :: 0 <= i < |pat| ==> Covers(pat[i], slices[i])
  }

  // The matcher says yes exactly when the segments can be laid over the path.
  lemma MatchMeaning(pat: seq<string>, path: seq<string>)
    ensures Match(pat, path) <==> exists slices :: Assigns(pat, path, slices)
  {
    if Match(pat, path) { var slices := MatchAssigns(pat, path); }
    if slices :| Assigns(pat, path, slices) { AssignsMatch(pat, path, slices); }
  }

  lemma {:induction false} MatchAssigns(pat: seq<string>, path: seq<string>) returns (slices: seq<seq<string>>)
    requires Match(pat, path)
    ensures Assigns(pat, path, slices)
    decreases |pat|
  {
    if pat == [] {
      slices := [];
    } else {
      var i: nat := 1;
      if pat[0] == "**" { i :| 0 <= i <= |path| && Match(pat[1..], path[i..]); }
      var rest := MatchAssigns(pat[1..], path[i..]);
      slices := [path[..i]] + rest;
      assert slices[1..] == rest && path == path[..i] + path[i..];
      forall j | 0 <= j < |pat| ensures Covers(pat[j], slices[j]) {
        if j > 0 { assert Covers(pat[1..][j - 1], rest[j - 1]); }
      }
    }
  }

  lemma {:induction false} AssignsMatch(pat: seq<string>, path: seq<string>, slices: seq<seq<string>>)
    requires Assigns(pat, path, slices)
    ensures Match(pat, path)
    decreases |pat|
  {
    if pat != [] {
      var i := |slices[0]|;
      assert path == slices[0] + Concat(slices[1..]);
      assert path[i..] == Concat(slices[1..]) && path[..i] == slices[0];
      forall j | 0 <= j < |pat[1..]| ensures Covers(pat[1..][j], slices[1..][j]) {
        assert Covers(pat[j + 1], slices[j + 1]);
      }
      AssignsMatch(pat[1..], path[i..], slices[1..]);
      assert Covers(pat[0], slices[0]);
    }
  }

  // The pattern is written with these segments, and they can be laid over the path.
  ghost predicate Written(pattern: string, segments: seq<string>, path: seq<string>, slices: seq<seq<string>>) {
    && segments != [] && Join(segments) == pattern && (forall s :: s in segments ==> NoDot(s))
    && Assigns(segments, path, slices)
  }

  // A pattern, read as segments between dots, matches a path exactly if they can be laid
  // over it.
  lemma PatternMeaning(pattern: string, path: seq<string>)
    ensures PathMatches(pattern, path) <==> exists segments, slices :: Written(pattern, segments, path, slices)
  {
    MatchMeaning(Split(pattern), path);
    if PathMatches(pattern, path) {
      var slices :| Assigns(Split(pattern), path, slices);
      JoinOfSplit(pattern);
      forall s | s in Split(pattern) ensures NoDot(s) {
        var i :| 0 <= i < |Split(pattern)| && Split(pattern)[i] == s;
        SplitParts(pattern, i);
      }
      assert Written(pattern, Split(pattern), path, slices);
    }
    if segments, slices :| Written(pattern, segments, path, slices) { SplitOfJoin(segments); }
  }

  // A path is noise exactly if some pattern of the list matches it.
  lemma NoisyMeaning(patterns: seq<string>, path: seq<string>)
    ensures Noisy(patterns, path)
      <==> exists p, segments, slices :: p in patterns && Written(p, segments, path, slices)
  {
    forall p ensures PathMatches(p, path) <==> exists segments, slices :: Written(p, segments, path, slices) {
      PatternMeaning(p, path);
    }
  }

  // ----- algebra ------------------------------------------------------------------

  ghost predicate SplitsAt(p: seq<string>, q: seq<string>, path: seq<string>, i: int) {
    0 <= i <= |path| && Match(p, path[..i]) && Match(q, path[i..])
  }

  // A pattern p followed by q matches exactly the paths that split into a p-part and a q-part.
  lemma {:induction false} MatchConcat(p: seq<string>, q: seq<string>, path: seq<string>)
    ensures Match(p + q, path) <==> exists i :: SplitsAt(p, q, path, i)
    decreases |p|
  {
    if p == [] {
      assert p + q == q && path[0..] == path;
      if Match(q, path) { assert SplitsAt(p, q, path, 0); }
    } else {
      assert (p + q)[1..] == p[1..] + q;
      if Match(p + q, path) {
        var i: nat := 1;
        if p[0] == "**" { i :| 0 <= i <= |path| && Match(p[1..] + q, path[i..]); }
        MatchConcat(p[1..], q, path[i..]);
        var j :| SplitsAt(p[1..], q, path[i..], j);
        assert path[i..][..j] == path[..i + j][i..] && path[i..][j..] == path[i + j..];
        assert SplitsAt(p, q, path, i + j);
      }
      if k :| SplitsAt(p, q, path, k) {
        var i: nat := 1;
        if p[0] == "**" { i :| 0 <= i <= |path[..k]| && Match(p[1..], path[..k][i..]); }
        assert path[..k][i..] == path[i..][..k - i] && path[k..] == path[i..][k - i..];
        assert SplitsAt(p[1..], q, path[i..], k - i);
        MatchConcat(p[1..], q, path[i..]);
      }
    }
  }

  lemma AnyMatches(path: seq<string>)
    ensures Match(["**"], path)
  {
    assert Match([], path[|path|..]);
  }

  // Repeating `**` anywhere in a pattern changes nothing.
  lemma RepeatedStars(p: seq<string>, q: seq<string>, path: seq<string>)
    ensures Match(p + ["**", "**"] + q, path) <==> Match(p + ["**"] + q, path)
  {
    forall rest: seq<string> ensures Match(["**", "**"] + q, rest) <==> Match(["**"] + q, rest) {
      TwoStars(q, rest);
    }
    assert p + ["**", "**"] + q == p + (["**", "**"] + q) && p + ["**"] + q == p + (["**"] + q);
    MatchConcat(p, ["**", "**"] + q, path);
    MatchConcat(p, ["**"] + q, path);
    if i :| SplitsAt(p, ["**", "**"] + q, path, i) { assert SplitsAt(p, ["**"] + q, path, i); }
    if i :| SplitsAt(p, ["**"] + q, path, i) { assert SplitsAt(p, ["**", "**"] + q, path, i); }
  }

  lemma TwoStars(q: seq<string>, path: seq<string>)
    ensures Match(["**", "**"] + q, path) <==> Match(["**"] + q, path)
  {
    assert (["**", "**"] + q)[1..] == ["**"] + q && (["**"] + q)[1..] == q;
    if Match(["**", "**"] + q, path) {
      var i :| 0 <= i <= |path| && Match(["**"] + q, path[i..]);
      var j :| 0 <= j <= |path[i..]| && Match(q, path[i..][j..]);
      assert path[i..][j..] == path[i + j..];
    }
    if Match(["**"] + q, path) { assert path[0..] == path; }
  }

  lemma {:induction false} LiteralMatch(pat: seq<string>, path: seq<string>)
    requires forall s :: s in pat ==> s != "*" && s != "**"
    ensures Match(pat, path) <==> pat == path
    decreases |pat|
  {
    if pat != [] {
      assert pat[0] in pat && forall s :: s in pat[1..] ==> s in pat;
    }
    if pat != [] && path != [] {
      LiteralMatch(pat[1..], path[1..]);
      assert pat == [pat[0]] + pat[1..] && path == [path[0]] + path[1..];
    }
  }

  // A pattern written out from a path, dots between segments, matches that path and, when
  // it holds no star, no other.
  lemma LiteralPattern(path: seq<string>, other: seq<string>)
    requires forall s :: s in path ==> s != "*" && s != "**"
    requires path != [] && forall i :: 0 <= i < |path| ==> NoDot(path[i])
    ensures PathMatches(Join(path), other) <==> other == path
  {
    SplitOfJoin(path);
    LiteralMatch(path, other);
  }

  // A key with a dot in it cannot be written out: no pattern without stars matches its path.
  lemma DottedKey(pattern: string, path: seq<string>, i: nat)
    requires forall s :: s in Split(pattern) ==> s != "*" && s != "**"
    requires i < |path| && !NoDot(path[i])
    ensures !PathMatches(pattern, path)
  {
    LiteralMatch(Split(pattern), path);
    if Split(pattern) == path { SplitParts(pattern, i); }
  }
}
