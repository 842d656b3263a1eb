/** Slash-separated paths, relative to a root that is written ".". Texts are byte strings. */
module Paths {
  import opened Bytes
  import opened Seqs

  const SLASH: Byte := 47
  const DOT: Byte := 46
  const ROOT: Text := [DOT]
  const DOTDOT: Text := [DOT, DOT]

  /** The pieces between slashes; always at least one. */
  function Split(s: Text): (r: seq<Text>)
    ensures |r| >= 1 && forall i :: 0 <= i < |r| ==> SLASH !in r[i]
  {
    if s == [] then [[]]
    else
      var rest := Split(s[1..]);
      if s[0] == SLASH then [[]] + rest else [[s[0]] + rest[0]] + rest[1..]
  }

  function Join(parts: seq<Text>): Text {
    if parts == [] then []
    else if |parts| == 1 then parts[0]
    else parts[0] + [SLASH] + Join(parts[1..])
  }

  lemma {:induction false} JoinSplit(s: Text)
    ensures Join(Split(s)) == s
  {
    if s != [] {
      JoinSplit(s[1..]);
      var rest := Split(s[1..]);
      if s[0] == SLASH {
        assert Split(s)[1..] == rest;
      } else if |rest| > 1 {
        assert Split(s)[1..] == rest[1..];
        assert s == [s[0]] + (rest[0] + [SLASH] + Join(rest[1..]));
      }
    }
  }

  lemma {:induction false} SplitAtSlash(p: Text, rest: Text)
    requires SLASH !in p
    ensures Split(p) == [p] && Split(p + [SLASH] + rest) == [p] + Split(rest)
  {
    if p == [] {
      assert p + [SLASH] + rest == [SLASH] + rest;
    } else {
      SplitAtSlash(p[1..], rest);
      assert (p + [SLASH] + rest)[1..] == p[1..] + [SLASH] + rest;
      assert p == [p[0]] + p[1..];
    }
  }

  lemma {:induction false} SplitJoin(parts: seq<Text>)
    requires parts != [] && forall i :: 0 <= i < |parts| ==> SLASH !in parts[i]
    ensures Split(Join(parts)) == parts
  {
    SplitAtSlash(parts[0], Join(parts[1..]));
    if |parts| > 1 {
      SplitJoin(parts[1..]);
    }
    assert parts == [parts[0]] + parts[1..];
  }

  // ----- clean and valid paths -----

  /** What one component must look like. */
  predicate ValidPart(p: Text) {
    p != [] && p != ROOT && p != DOTDOT && SLASH !in p
  }

  predicate ValidParts(parts: seq<Text>) {
    forall i :: 0 <= i < |parts| ==> ValidPart(parts[i])
  }

  predicate ValidPath(s: Text) {
    s == ROOT || (s != [] && s[0] != SLASH && s[|s| - 1] != SLASH
                  && forall i :: 0 <= i < |Split(s)| ==>
                    Split(s)[i] != [] && Split(s)[i] != ROOT && Split(s)[i] != DOTDOT)
  }

  function PushPart(stack: seq<Text>, part: Text): seq<Text> {
    if part == [] || part == ROOT then stack
    else if part == DOTDOT then (if stack == [] then [] else stack[..|stack| - 1])
    else stack + [part]
  }

  function CleanParts(parts: seq<Text>): seq<Text> {
    if parts == [] then [] else PushPart(CleanParts(parts[..|parts| - 1]), parts[|parts| - 1])
  }

  /** The path with the given components. */
  function PathOf(parts: seq<Text>): Text {
    if parts == [] then ROOT else Join(parts)
  }

  function Components(s: Text): seq<Text> {
    if s == ROOT then [] else Split(s)
  }

  function Clean(path: Text): Text {
    PathOf(CleanParts(Split(path)))
  }

  method CleanPath(path: Text) returns (r: Text)
    ensures r == Clean(path)
  {
    if path == [] || path == ROOT {
      assert Split([]) == [[]] && Split([])[..0] == [];
      assert CleanParts(Split([])) == PushPart(CleanParts([]), []);
      SplitAtSlash(ROOT, []);
      assert [ROOT][..0] == [];
      assert CleanParts([ROOT]) == PushPart(CleanParts([]), ROOT);
      return ROOT;
    }
    var parts: seq<Text> := [];
    var pieces := Split(path);
    for i := 0 to |pieces|
      invariant parts == CleanParts(pieces[..i])
    {
      assert pieces[..i + 1][..i] == pieces[..i];
      var part := pieces[i];
      if part == [] || part == ROOT {
      } else if part == DOTDOT {
        if parts != [] { parts := parts[..|parts| - 1]; }
      } else {
        parts := parts + [part];
      }
    }
    TakeAll(pieces);
    CleanPartsValid(pieces);
    var cleaned := Join(parts);
    JoinOfValid(parts);
    return if cleaned == [] then ROOT else cleaned;
  }

  lemma {:induction false} CleanPartsValid(parts: seq<Text>)
    requires forall i :: 0 <= i < |parts| ==> SLASH !in parts[i]
    ensures ValidParts(CleanParts(parts))
  {
    if parts != [] { CleanPartsValid(parts[..|parts| - 1]); }
  }

  lemma {:induction false} CleanPartsOfValid(parts: seq<Text>)
    requires ValidParts(parts)
    ensures CleanParts(parts) == parts
  {
    if parts != [] {
      CleanPartsOfValid(parts[..|parts| - 1]);
      assert parts == parts[..|parts| - 1] + [parts[|parts| - 1]];
    }
  }

  lemma {:induction false} JoinOfValid(parts: seq<Text>)
    requires ValidParts(parts)
    ensures parts == [] <==> Join(parts) == []
    ensures parts != [] ==>
      Join(parts)[0] == parts[0][0] && Join(parts)[|Join(parts)| - 1] != SLASH && Join(parts) != ROOT
  {
    if parts != [] {
      assert ValidPart(parts[0]);
      assert parts[0][0] in parts[0] && parts[0][|parts[0]| - 1] in parts[0];
      if |parts| > 1 {
        JoinOfValid(parts[1..]);
        assert Join(parts)[|parts[0]|] == SLASH;
      }
    }
  }

  /** Valid paths and lists of valid components are the same thing. */
  lemma PathsAreComponents(parts: seq<Text>)
    requires ValidParts(parts)
    ensures ValidPath(PathOf(parts)) && Components(PathOf(parts)) == parts
  {
    if parts != [] {
      JoinOfValid(parts);
      SplitJoin(parts);
      assert parts[0][0] in parts[0];
    }
  }

  lemma ComponentsArePaths(s: Text)
    requires ValidPath(s)
    ensures ValidParts(Components(s)) && PathOf(Components(s)) == s
  {
    if s != ROOT { JoinSplit(s); }
  }

  /** Cleaning any text gives a valid path, and leaves valid paths alone. */
  lemma CleanIsValid(path: Text)
    ensures ValidPath(Clean(path)) && Clean(Clean(path)) == Clean(path)
  {
    CleanPartsValid(Split(path));
    PathsAreComponents(CleanParts(Split(path)));
    CleanFixesValid(Clean(path));
  }

  lemma CleanFixesValid(s: Text)
    requires ValidPath(s)
    ensures Clean(s) == s
  {
    ComponentsArePaths(s);
    if s == ROOT {
      SplitAtSlash(ROOT, []);
      assert [ROOT][..0] == [];
      assert CleanParts([ROOT]) == PushPart(CleanParts([]), ROOT);
    } else {
      CleanPartsOfValid(Split(s));
    }
  }

  /** The last piece. */
  function BaseName(path: Text): Text {
    Split(path)[|Split(path)| - 1]
  }

  /** Everything before the last slash of the cleaned path, or the root. */
  function ParentPath(path: Text): Text {
    var cleaned := Clean(path);
    var pieces := Split(cleaned);
    if cleaned == ROOT || |pieces| == 1 then ROOT else Join(pieces[..|pieces| - 1])
  }

  lemma ParentDropsLast(s: Text)
    requires ValidPath(s)
    ensures ValidPath(ParentPath(s))
    ensures Components(ParentPath(s)) == if s == ROOT then [] else Components(s)[..|Components(s)| - 1]
    ensures s != ROOT ==> Components(s) == Components(ParentPath(s)) + [BaseName(s)] && ValidPart(BaseName(s))
  {
    if s == ROOT {
      CleanFixesValid(ROOT);
    } else {
      ComponentsArePaths(s);
      ParentIsFront(s);
      LastIsDropped(Components(s));
    }
  }

  lemma ParentIsFront(s: Text)
    requires ValidPath(s) && s != ROOT
    ensures ParentPath(s) == PathOf(Split(s)[..|Split(s)| - 1])
  {
    CleanFixesValid(s);
  }

  lemma LastIsDropped(parts: seq<Text>)
    requires ValidParts(parts) && parts != []
    ensures var front := parts[..|parts| - 1];
            && ValidPath(PathOf(front)) && Components(PathOf(front)) == front
            && parts == front + [parts[|parts| - 1]] && ValidPart(parts[|parts| - 1])
  {
    PathsAreComponents(parts[..|parts| - 1]);
  }

  // ----- joining, as the 9P server does it -----

  function JoinPath(base: Text, name: Text): Text {
    if base == ROOT then Clean(name) else Clean(base + [SLASH] + name)
  }

  function WalkJoin(base: Text, name: Text): Text {
    if name == ROOT then base
    else if name == DOTDOT then ParentPath(base)
    else JoinPath(base, name)
  }

  lemma {:induction false} JoinAppend(parts: seq<Text>, name: Text)
    requires parts != []
    ensures Join(parts + [name]) == Join(parts) + [SLASH] + name
  {
    if |parts| > 1 {
      JoinAppend(parts[1..], name);
      assert (parts + [name])[1..] == parts[1..] + [name];
    } else {
      assert (parts + [name])[1..] == [name];
    }
  }

  lemma JoinAddsComponent(base: Text, name: Text)
    requires ValidPath(base) && ValidPart(name)
    ensures ValidPath(JoinPath(base, name)) && JoinPath(base, name) != ROOT
    ensures Components(JoinPath(base, name)) == Components(base) + [name]
  {
    ComponentsArePaths(base);
    var parts := Components(base) + [name];
    PathsAreComponents(parts);
    JoinOfValid(parts);
    if base == ROOT {
      assert parts == [name];
    } else {
      JoinAppend(Components(base), name);
    }
    CleanFixesValid(PathOf(parts));
  }

  /** What a walk of one name does to the components: it never leaves the root. */
  function WalkParts(parts: seq<Text>, name: Text): seq<Text> {
    PushPart(parts, name)
  }

  lemma WalkJoinStaysInside(base: Text, name: Text)
    requires ValidPath(base) && name != [] && SLASH !in name
    ensures ValidPath(WalkJoin(base, name))
    ensures Components(WalkJoin(base, name)) == WalkParts(Components(base), name)
    ensures Components(WalkJoin(base, name))
         == if name == [46] then Components(base)
            else if name == [46, 46] then (if base == [46] then [] else Components(base)[..|Components(base)| - 1])
            else Components(base) + [name]
  {
    if name == DOTDOT {
      ParentDropsLast(base);
    } else if name != ROOT {
      JoinAddsComponent(base, name);
    }
  }

  // ----- containment -----

  /** The sync code's test on path strings. */
  predicate PathContainsText(ancestor: Text, descendant: Text) {
    Clean(descendant) == Clean(ancestor) || Clean(ancestor) + [SLASH] <= Clean(descendant)
  }

  lemma {:induction false} JoinPrefix(a: seq<Text>, d: seq<Text>)
    requires ValidParts(a) && ValidParts(d) && a != [] && d != []
    ensures Join(a) + [SLASH] <= Join(d) <==> a < d
  {
    var ja, jd := Join(a) + [SLASH], Join(d);
    if ja <= jd {
      var rest := jd[|ja|..];
      assert jd == Join(a) + [SLASH] + rest;
      SplitJoin(d);
      SplitJoin(a);
      JoinAppend(a, rest);
      SplitJoinRest(a, rest);
      assert a == d[..|a|];
    }
    if a < d {
      JoinConcat(a, d[|a|..]);
      assert d == a + d[|a|..];
    }
  }

  lemma Reassociate<T>(w: seq<T>, x: seq<T>, y: seq<T>, z: seq<T>)
    ensures w + x + y + z == w + (x + y + z)
  {
  }

  lemma {:induction false} SplitJoinRest(a: seq<Text>, rest: Text)
    requires ValidParts(a) && a != []
    ensures Split(Join(a) + [SLASH] + rest) == a + Split(rest)
  {
    if |a| == 1 {
      SplitAtSlash(a[0], rest);
      assert a == [a[0]];
    } else {
      SplitJoinRest(a[1..], rest);
      SplitAtSlash(a[0], Join(a[1..]) + [SLASH] + rest);
      Reassociate(a[0] + [SLASH], Join(a[1..]), [SLASH], rest);
      assert a == [a[0]] + a[1..];
      Reassociate([a[0]], a[1..], [], Split(rest));
      assert a[1..] + [] == a[1..] && a + [] == a;
    }
  }

  lemma {:induction false} JoinConcat(a: seq<Text>, b: seq<Text>)
    requires a != [] && b != []
    ensures Join(a + b) == Join(a) + [SLASH] + Join(b)
  {
    if |a| == 1 {
      assert (a + b)[1..] == b;
    } else {
      JoinConcat(a[1..], b);
      assert (a + b)[1..] == a[1..] + b;
    }
  }

  /** On valid paths the string test is a test on components, with one oddity: the root
      contains nothing but itself. */
  lemma ContainmentIsOnComponents(a: Text, d: Text)
    requires ValidPath(a) && ValidPath(d)
    ensures PathContainsText(a, d) <==>
      Components(d) == Components(a) || (Components(a) != [] && Components(a) <= Components(d))
  {
    CleanFixesValid(a);
    CleanFixesValid(d);
    ComponentsArePaths(a);
    ComponentsArePaths(d);
    var ca, cd := Components(a), Components(d);
    if ca == [] {
      RootPrefixesNothing(d);
    } else if cd == [] {
      assert |d| == 1;
    } else {
      JoinPrefix(ca, cd);
    }
  }

  lemma RootPrefixesNothing(d: Text)
    requires ValidPath(d)
    ensures !(ROOT + [SLASH] <= d)
  {
    assert d != ROOT ==> Split(d)[0] != ROOT;
    if ROOT + [SLASH] <= d {
      var rest := d[2..];
      assert d == ROOT + [SLASH] + rest;
      SplitAtSlash(ROOT, rest);
    }
  }

  // ----- cleaning, piece by piece -----

  lemma {:induction false} SplitLast(path: Text, piece: Text)
    requires SLASH !in piece
    ensures Split(path + [SLASH] + piece) == Split(path) + [piece]
  {
    var whole := path + [SLASH] + piece;
    if path == [] {
      assert whole[1..] == piece;
      SplitAtSlash(piece, []);
    } else {
      SplitLast(path[1..], piece);
      assert whole[1..] == path[1..] + [SLASH] + piece;
    }
  }

  lemma ComponentsOfClean(path: Text)
    ensures Components(Clean(path)) == CleanParts(Split(path))
    ensures Clean(path) == [46] <==> CleanParts(Split(path)) == []
  {
    CleanPartsValid(Split(path));
    PathsAreComponents(CleanParts(Split(path)));
    JoinOfValid(CleanParts(Split(path)));
  }

  lemma OneMorePiece(pieces: seq<Text>, piece: Text)
    ensures CleanParts(pieces + [piece]) == PushPart(CleanParts(pieces), piece)
  {
    assert (pieces + [piece])[..|pieces|] == pieces;
  }

  /** What cleaning does with one more piece: an empty one and "." change nothing, ".." takes the last
      component away if there is one, and anything else is a component. */
  lemma CleanStep(path: Text, piece: Text)
    requires SLASH !in piece
    ensures Components(Clean(path + [47] + piece))
         == if piece == [] || piece == [46] then Components(Clean(path))
            else if piece == [46, 46] then
              (if Clean(path) == [46] then [] else Components(Clean(path))[..|Components(Clean(path))| - 1])
            else Components(Clean(path)) + [piece]
  {
    SplitLast(path, piece);
    OneMorePiece(Split(path), piece);
    ComponentsOfClean(path);
    ComponentsOfClean(path + [47] + piece);
  }

  /** And with a single piece. */
  lemma CleanPiece(piece: Text)
    requires SLASH !in piece
    ensures Components(Clean(piece)) == if piece == [] || piece == [46] || piece == [46, 46] then [] else [piece]
  {
    SplitAtSlash(piece, []);
    OneMorePiece([], piece);
    assert [] + [piece] == [piece];
    ComponentsOfClean(piece);
  }

  /** The root is written ".", and the components of any other valid path stand between its slashes. */
  lemma PathLayout(parts: seq<Text>, part: Text)
    ensures PathOf([]) == [46] && PathOf([part]) == part
    ensures parts != [] ==> PathOf(parts + [part]) == PathOf(parts) + [47] + part
  {
    if parts != [] { JoinAppend(parts, part); }
  }
}
