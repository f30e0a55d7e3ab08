/**
 * What a lookup finds, said by the namespace: without links on the way, a path leads where the normalised list of its
 * names leads; at a link, the lookup goes on with the link's target in its place.
 */
module ResolveMeaning {
  import opened Basics
  import opened Forest
  import opened Volumes
  import opened Resolve

  // ---------------------------------------------------------------- the text of a path

  /** Slashes separate, and a name reaches up to the next slash: this takes any path apart. */
  lemma ComponentsMean(name: Name, suffix: bytes)
    ensures Components([]) == [] && Components([47] + suffix) == Components(suffix)
    ensures name != [] && 47 !in name && (suffix == [] || suffix[0] == 47) ==>
              Components(name + suffix) == [name] + Components(suffix)
  {
    assert ([47] + suffix)[1..] == suffix;
    if name != [] && 47 !in name && (suffix == [] || suffix[0] == 47) {
      var b := name + suffix;
      SlashUnique(b, 0, |name|);
      assert b[..|name|] == name && b[|name|..] == suffix;
    }
  }

  /** The empty path, a NUL and an overlong name are refused; else the path is absolute behind a leading slash. */
  lemma PrepareMeans(b: bytes)
    ensures b == [] <==> Prepare(b) == Err(NotFound)
    ensures b != [] && 0 in b <==> Prepare(b) == Err(InvalidArgument)
    ensures b != [] && 0 !in b && (exists k :: 0 <= k < |Components(b)| && |Components(b)[k]| > 255) <==>
            Prepare(b) == Err(PathTooLong)
    ensures Prepare(b).Ok? ==>
              var p := Prepare(b).value;
              && p.components == Components(b)
              && (p.absolute <==> b[0] == 47) && (p.trailingSlash <==> b[|b| - 1] == 47)
  {
    hide Components;
  }

  // ---------------------------------------------------------------- paths without links

  /** One name more: a dot stays, two dots leave the last name off, the root is its own parent. */
  function Moved(base: Path, name: Name): Path {
    if name == [46] then base
    else if name == [46, 46] then if base == [] then [] else base[..|base| - 1]
    else base + [name]
  }

  /** A list of names without dots. */
  function Normal(base: Path, names: seq<Name>): Path
    decreases |names|
  {
    if names == [] then base else Normal(Moved(base, names[0]), names[1..])
  }

  /** Each name but the last leads to a directory, and no name leads to a symbolic link. */
  ghost predicate Plain(v: Volume, base: Path, names: seq<Name>)
    decreases |names|
  {
    var here := Lookup(v, ROOT, base);
    && here.Some? && !v[here.value].Symlink?
    && (names != [] ==> v[here.value].Directory? && Plain(v, Moved(base, names[0]), names[1..]))
  }

  /** One name from a directory leads where the moved path leads. */
  lemma EnterMoves(v: Volume, base: Path, name: Name)
    requires WellFormed(v) && Lookup(v, ROOT, base).Some? && v[Lookup(v, ROOT, base).value].Directory?
    ensures var d := Lookup(v, ROOT, base).value;
            && Standing(v, d) && v[d].parent in v
            && (match Lookup(v, ROOT, Moved(base, name))
                case Some(next) => Enter(v, d, name) == Ok(next)
                case None => Enter(v, d, name) == Err(NotFound))
  {
    var d := Lookup(v, ROOT, base).value;
    LookupBack(v, base);
    if d != ROOT {
      LiveParent(v, d);
      NamesLookup(v, v[d].parent);
    } else {
      assert Names(v, ROOT) == [];
      RootLive(v);
    }
    LookupSnoc(v, ROOT, base, name);
    hide Live, Lookup;
    if name == [46, 46] && base != [] { assert base[..|base| - 1] == Names(v, v[d].parent); }
    assert WellFormed(v) ==> v[ROOT].parent == ROOT;
  }

  /**
   * Main result: a path with no link on its way leads where the normalised list of its names leads; a trailing slash
   * asks for a directory. No expansion is used up.
   */
  lemma {:induction false} PlainResolves(
    v: Volume, base: Path, names: seq<Name>, trailing: bool, follow: bool, budget: nat)
    requires WellFormed(v) && Plain(v, base, names)
    ensures Standing(v, Lookup(v, ROOT, base).value)
    ensures Lookup(v, ROOT, Normal(base, names)).Some?
    ensures var last := Lookup(v, ROOT, Normal(base, names)).value;
            Splice(v, Lookup(v, ROOT, base).value, names, trailing, follow, budget) ==
            if trailing && !v[last].Directory? then Err(NotDirectory) else Ok(last)
    decreases |names|
  {
    hide WellFormed, Enter, Lookup;
    var d := Lookup(v, ROOT, base).value;
    LookupBack(v, base);
    if names == [] {
      SpliceArrives(v, d, trailing, follow, budget);
    } else {
      EnterMoves(v, base, names[0]);
      PlainResolves(v, Moved(base, names[0]), names[1..], trailing, follow, budget);
      NotFollowed(v, d, names[0], |names| == 1 && !trailing, follow);
      hide Splice, Follows;
      SpliceEnters(v, d, names, trailing, follow, budget);
    }
  }

  /** A name that does not lead to a symbolic link is not followed. */
  lemma NotFollowed(v: Volume, d: Ino, name: Name, last: bool, follow: bool)
    requires d in v && v[d].Directory? && v[d].parent in v
    requires Enter(v, d, name).Ok? ==> !v[Enter(v, d, name).value].Symlink?
    ensures !Follows(v, d, name, last, follow)
  {
  }

  /** A name behind something that is no directory, and a name that is not there, end the lookup. */
  lemma {:induction false} PlainFails(
    v: Volume, base: Path, names: seq<Name>, more: seq<Name>, trailing: bool, follow: bool, budget: nat)
    requires WellFormed(v) && Plain(v, base, names) && more != []
    requires var last := Lookup(v, ROOT, Normal(base, names));
             last.Some? && (v[last.value].Directory? ==> Lookup(v, ROOT, Moved(Normal(base, names), more[0])).None?)
    ensures Standing(v, Lookup(v, ROOT, base).value)
    ensures var last := Lookup(v, ROOT, Normal(base, names)).value;
            Splice(v, Lookup(v, ROOT, base).value, names + more, trailing, follow, budget) ==
            Err(if v[last].Directory? then NotFound else NotDirectory)
    decreases |names|
  {
    hide WellFormed, Lookup;
    var d := Lookup(v, ROOT, base).value;
    LookupBack(v, base);
    var all := names + more;
    if names == [] {
      assert all == more;
      if v[d].Directory? { EnterMoves(v, base, more[0]); }
      SpliceEnters(v, d, all, trailing, follow, budget);
    } else {
      assert all[0] == names[0] && all[1..] == names[1..] + more;
      EnterMoves(v, base, names[0]);
      PlainFails(v, Moved(base, names[0]), names[1..], more, trailing, follow, budget);
      NotFollowed(v, d, names[0], |all| == 1 && !trailing, follow);
      hide Splice, Follows, Enter;
      SpliceEnters(v, d, all, trailing, follow, budget);
    }
  }

  // ---------------------------------------------------------------- links

  /**
   * Main result: at a link that is not the last name, or that is asked to be followed, the lookup goes on with the
   * target's names in front of those left, from the root if the target starts with a slash, one expansion less.
   */
  lemma LinkGoesOn(v: Volume, d: Ino, name: Name, rest: seq<Name>, trailing: bool, follow: bool, budget: nat)
    requires WellFormed(v) && Standing(v, d) && v[d].Directory? && name != [46] && name != [46, 46]
    requires name in v[d].entries && v[d].entries[name] in v && v[v[d].entries[name]].Symlink?
    ensures Standing(v, ROOT)
    ensures var link := v[d].entries[name];
            var target := v[link].target;
            Splice(v, d, [name] + rest, trailing, follow, budget) ==
            if rest == [] && !trailing && !follow then Ok(link)
            else if target == [] then Err(NotFound)
            else if budget == 0 then Err(SymlinkLoop)
            else if Prepare(target).Err? then Err(Prepare(target).error)
            else Splice(v, if target[0] == 47 then ROOT else d, Components(target) + rest,
                        if rest == [] && !trailing then target[|target| - 1] == 47 else trailing, follow, budget - 1)
  {
    var all, link := [name] + rest, v[d].entries[name];
    var target := v[link].target;
    assert all[0] == name && all[1..] == rest;
    RootStands(v);
    PrepareMeans(target);
    if rest == [] && !trailing && !follow {
      SpliceEnters(v, d, all, trailing, follow, budget);
      SpliceArrives(v, link, trailing, follow, budget);
    } else {
      SpliceFollows(v, d, all, trailing, follow, budget);
    }
    hide WellFormed, Components, Standing;
  }
}
