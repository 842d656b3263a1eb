/** How the 9P client turns a path into the names of a walk. */
module ClientPaths {
  import opened Wrappers
  import opened Bytes
  import opened Codec
  import opened Paths
  import opened FidTable

  /** `validated_client_path`: relative, not empty, without "..", and then cleaned. */
  function ClientPath(name: Text): Result<Text> {
    if name == [] || name[0] == SLASH || DOTDOT in Split(name) then Err(Invalid)
    else if !ValidPath(Clean(name)) then Err(Invalid)
    else Ok(Clean(name))
  }

  /** A clean, valid path passes unchanged. */
  lemma ClientPathKeepsValid(path: Text)
    requires ValidPath(path)
    ensures ClientPath(path) == Ok(path)
  {
    CleanFixesValid(path);
    SplitAtSlash(ROOT, []);
  }

  // ----- texts stay well formed -----

  lemma {:induction false} JoinUtf8(parts: seq<Text>)
    requires parts != []
    ensures Utf8(Join(parts)) <==> forall i :: 0 <= i < |parts| ==> Utf8(parts[i])
  {
    if |parts| > 1 {
      JoinUtf8(parts[1..]);
      Utf8AroundAscii(parts[0], SLASH, Join(parts[1..]));
      forall i | 0 < i < |parts| ensures Utf8(parts[i]) <==> Utf8(parts[1..][i - 1]) {
        assert parts[i] == parts[1..][i - 1];
      }
    }
  }

  predicate AllUtf8(parts: seq<Text>) {
    forall p :: p in parts ==> Utf8(p)
  }

  lemma PathUtf8(parts: seq<Text>)
    ensures parts != [] ==> (Utf8(Join(parts)) <==> AllUtf8(parts))
  {
    if parts != [] { JoinUtf8(parts); }
  }

  lemma {:induction false} CleanPartsAreParts(parts: seq<Text>)
    ensures forall p :: p in CleanParts(parts) ==> p in parts
  {
    if parts != [] {
      var front, last := parts[..|parts| - 1], parts[|parts| - 1];
      CleanPartsAreParts(front);
      forall p | p in PushPart(CleanParts(front), last) ensures p in parts {
        assert p in CleanParts(front) || p == last;
      }
    }
  }

  /** The components of a validated path are well formed when the name was. */
  lemma ClientPathUtf8(name: Text)
    requires Utf8(name) && ClientPath(name).Ok?
    ensures AllUtf8(Components(ClientPath(name).value))
  {
    JoinSplit(name);
    PathUtf8(Split(name));
    CleanPartsValid(Split(name));
    CleanPartsAreParts(Split(name));
    PathsAreComponents(CleanParts(Split(name)));
  }

  /** The same for a path and its parent and last name. */
  lemma ParentUtf8(path: Text)
    requires ValidPath(path) && AllUtf8(Components(path))
    ensures ValidPath(ParentPath(path)) && AllUtf8(Components(ParentPath(path)))
    ensures path != ROOT ==>
      Utf8(BaseName(path)) && ValidPart(BaseName(path)) && JoinPath(ParentPath(path), BaseName(path)) == path
  {
    ParentDropsLast(path);
    if path != ROOT {
      var parent, name := ParentPath(path), BaseName(path);
      assert name in Components(path);
      forall p | p in Components(parent) ensures p in Components(path) {}
      JoinAddsComponent(parent, name);
      ComponentsArePaths(JoinPath(parent, name));
      ComponentsArePaths(path);
    }
  }

  lemma RootUtf8()
    ensures Utf8(ROOT)
  {
    assert ROOT[1..] == [];
  }

  // ----- walking the components leads to the path -----

  lemma {:induction false} FoldOfValid(names: seq<Text>)
    requires ValidParts(names)
    ensures FoldWalk([], names) == names
  {
    if names != [] {
      FoldOfValid(names[..|names| - 1]);
      assert names == names[..|names| - 1] + [names[|names| - 1]];
    }
  }

  lemma ValidPartsWalk(names: seq<Text>)
    requires ValidParts(names)
    ensures forall i :: 0 <= i < |names| ==> WalkName(names[i])
    ensures WalkAll(ROOT, names) == PathOf(names)
  {
    WalkAllOnComponents(ROOT, names);
    WalkAllStaysInside(ROOT, names);
    FoldOfValid(names);
    ComponentsArePaths(WalkAll(ROOT, names));
  }

  /** Which names the client takes: not empty, not absolute, and without a ".." among their pieces. */
  lemma ClientPathTakes(name: Text)
    ensures ClientPath(name)
         == if name != [] && name[0] != 47 && [46, 46] !in Split(name) then Ok(Clean(name)) else Err(Invalid)
  {
    CleanIsValid(name);
  }
}
