/** `find_profiles`: list every profile directory under the two profile roots, local
    `profiles` first, then Steam Cloud's `steam_profiles`, decoding each directory name. */
module Profiles {
  import opened Wrappers
  import opened Bytes
  import opened Paths
  import HexName

  /** A directory entry as `fs::read_dir` yields it: its file name (as a string) and whether
      it is a directory. Entries that fail to read are already dropped (`entries.flatten()`). */
  datatype Entry = Entry(name: Text, isDir: bool)

  datatype ProfileInfo = ProfileInfo(name: Text, path: Path)

  /** The two roots scanned, in scan order, under the Documents directory. */
  function ProfileRoots(docs: Path): (roots: seq<Path>)
    ensures |roots| == 2
  {
    [Join(Join(docs, GameDir), Ascii("profiles")), Join(Join(docs, GameDir), Ascii("steam_profiles"))]
  }

  /** The profile reported for a directory entry under `base`. */
  function ProfileOf(base: Path, e: Entry): ProfileInfo
  {
    ProfileInfo(HexName.DecodeName(e.name), Join(base, e.name))
  }

  /** The profiles found among the entries of one root, in entry order. */
  function Listed(base: Path, entries: seq<Entry>): (ps: seq<ProfileInfo>)
    ensures |ps| <= |entries|
    decreases |entries|
  {
    if entries == [] then []
    else
      var last := entries[|entries| - 1];
      Listed(base, entries[..|entries| - 1]) + (if last.isDir then [ProfileOf(base, last)] else [])
  }

  /** What one root contributes: nothing when it cannot be read. */
  function InRoot(listing: map<Path, seq<Entry>>, root: Path): seq<ProfileInfo>
  {
    if root in listing then Listed(root, listing[root]) else []
  }

  /** Listing distributes over concatenation of the entries: order is kept and entries
      do not influence each other. */
  lemma {:induction false} ListedConcat(base: Path, xs: seq<Entry>, ys: seq<Entry>)
    ensures Listed(base, xs + ys) == Listed(base, xs) + Listed(base, ys)
    decreases |ys|
  {
    if ys == [] {
      assert xs + ys == xs;
    } else {
      var ys' := ys[..|ys| - 1];
      assert (xs + ys)[..|xs + ys| - 1] == xs + ys';
      ListedConcat(base, xs, ys');
    }
  }

  /** A profile is listed exactly when it comes from a directory entry; non-directories are
      skipped. */
  lemma {:induction false} ListedMembers(base: Path, entries: seq<Entry>, p: ProfileInfo)
    ensures p in Listed(base, entries) <==>
      exists i :: 0 <= i < |entries| && entries[i].isDir && p == ProfileOf(base, entries[i])
    decreases |entries|
  {
    if entries != [] {
      var front := entries[..|entries| - 1];
      ListedMembers(base, front, p);
      if i :| 0 <= i < |front| && front[i].isDir && p == ProfileOf(base, front[i]) {
        assert entries[i] == front[i];
      }
    }
  }

  /** Every directory among `entries` has a name `decode_hex_name` can slice. */
  predicate DirNamesDecodable(entries: seq<Entry>)
  {
    forall i :: 0 <= i < |entries| && entries[i].isDir ==>
      HexName.SlicesOnBoundaries(entries[i].name)
  }

  predicate RootsDecodable(docs: Path, listing: map<Path, seq<Entry>>)
  {
    forall r :: 0 <= r < 2 && ProfileRoots(docs)[r] in listing ==>
      DirNamesDecodable(listing[ProfileRoots(docs)[r]])
  }

  /** `find_profiles`: no Documents directory gives no profiles; otherwise the profiles of
      the local root followed by those of the Steam Cloud root. `docs` is what
      `dirs::document_dir()` returns and `listing` maps each readable directory to its
      entries. */
  method FindProfiles(docs: Option<Path>, listing: map<Path, seq<Entry>>) returns (out: seq<ProfileInfo>)
    requires docs.Some? ==> RootsDecodable(docs.value, listing)
    ensures docs.None? ==> out == []
    ensures docs.Some? ==>
      out == InRoot(listing, ProfileRoots(docs.value)[0]) + InRoot(listing, ProfileRoots(docs.value)[1])
  {
    out := [];
    if docs.None? {
      return;
    }
    var roots := ProfileRoots(docs.value);
    for r := 0 to |roots|
      invariant out == if r == 0 then [] else if r == 1 then InRoot(listing, roots[0])
                       else InRoot(listing, roots[0]) + InRoot(listing, roots[1])
    {
      var base := roots[r];
      if base in listing {
        var found := ScanRoot(base, listing[base]);
        out := out + found;
      }
    }
  }

  /** The inner loop of `find_profiles` over one readable root: each directory entry, in
      order, becomes a profile with its decoded name. */
  method ScanRoot(base: Path, entries: seq<Entry>) returns (found: seq<ProfileInfo>)
    requires DirNamesDecodable(entries)
    ensures found == Listed(base, entries)
  {
    found := [];
    for j := 0 to |entries|
      invariant found == Listed(base, entries[..j])
    {
      assert entries[..j + 1][..j] == entries[..j];
      var e := entries[j];
      if e.isDir {
        var name := HexName.DecodeHexName(e.name);
        found := found + [ProfileInfo(name, Join(base, e.name))];
      }
    }
    assert entries[..|entries|] == entries;
  }
}
