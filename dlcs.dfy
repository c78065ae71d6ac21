/** `detect_dlcs`: pick the game's install directory through a chain of sources, then
    report which DLC packages are present by looking for a fixed marker file per package
    under `<install>/dlc`. The registry and the filesystem are inputs: the Steam install
    path read from the registry (None when the key or the value is missing) and the set
    of paths that exist. */
module Dlcs {
  import opened Wrappers
  import opened Bytes
  import opened Paths

  /** `<steam>/steamapps/common/Euro Truck Simulator 2`. */
  function SteamGamePath(steam: Text): (p: Path)
    ensures |p| == 4
  {
    Join(Join(Join(FromText(steam), Ascii("steamapps")), Ascii("common")), GameDir)
  }

  /** The hard-coded fallback install directory. */
  const DefaultInstall: Path :=
    FromText(Ascii("C:\\Program Files (x86)\\Steam\\steamapps\\common\\Euro Truck Simulator 2"))

  /** `ets2_install_from_registry`: the game directory under Steam's install path, but only
      when that directory exists. */
  function RegistryInstall(steamPath: Option<Text>, existing: set<Path>): (r: Option<Path>)
    ensures r.Some? <==> steamPath.Some? && SteamGamePath(steamPath.value) in existing
    ensures r.Some? ==> r.value == SteamGamePath(steamPath.value)
  {
    match steamPath
    case None => None
    case Some(steam) =>
      var game := SteamGamePath(steam);
      if game in existing then Some(game) else None
  }

  /** The install directory `detect_dlcs` uses: the explicit path verbatim if given, else
      the registry's directory if it exists, else the hard-coded default. */
  function InstallPath(explicit: Option<Text>, steamPath: Option<Text>, existing: set<Path>): (p: Path)
    ensures explicit.Some? ==> p == FromText(explicit.value)
    ensures explicit.None? && steamPath.Some? && SteamGamePath(steamPath.value) in existing ==>
      p == SteamGamePath(steamPath.value)
    ensures explicit.None? && (steamPath.None? || SteamGamePath(steamPath.value) !in existing) ==>
      p == DefaultInstall
  {
    match explicit
    case Some(e) => FromText(e)
    case None =>
      match RegistryInstall(steamPath, existing)
      case Some(game) => game
      case None => DefaultInstall
  }

  /** The optional packages `detect_dlcs` reports. */
  datatype Dlc = HeavyCargo | SpecialTransport | East | North | Fr | It | Balt | Rbs | Iberia | Wb | Greece

  /** The marker file whose presence under `<install>/dlc` means the package is installed. */
  function Marker(d: Dlc): Text
  {
    match d
    case HeavyCargo => Ascii("dlc_heavy_cargo.scs")
    case SpecialTransport => Ascii("dlc_oversize.scs")
    case East => Ascii("dlc_east.scs")
    case North => Ascii("dlc_north.scs")
    case Fr => Ascii("dlc_fr.scs")
    case It => Ascii("dlc_it.scs")
    case Balt => Ascii("dlc_balt.scs")
    case Rbs => Ascii("dlc_blke.scs")
    case Iberia => Ascii("dlc_iberia.scs")
    case Wb => Ascii("dlc_westbalkans.scs")
    case Greece => Ascii("dlc_greece.scs")
  }

  function MarkerPath(install: Path, d: Dlc): (p: Path)
    ensures |p| == |install| + 2
  {
    Join(Join(install, Ascii("dlc")), Marker(d))
  }

  /** No two packages share a marker file. */
  lemma MarkersDistinct(d: Dlc, e: Dlc)
    requires d != e
    ensures Marker(d) != Marker(e)
  {
    MarkerSignature(d);
    MarkerSignature(e);
  }

  /** The length of a marker name and its two bytes after `dlc_`, which tell the markers
      apart. */
  function Signature(d: Dlc): (nat, byte, byte)
  {
    match d
    case HeavyCargo => (19, 0x68, 0x65)
    case SpecialTransport => (16, 0x6F, 0x76)
    case East => (12, 0x65, 0x61)
    case North => (13, 0x6E, 0x6F)
    case Fr => (10, 0x66, 0x72)
    case It => (10, 0x69, 0x74)
    case Balt => (12, 0x62, 0x61)
    case Rbs => (12, 0x62, 0x6C)
    case Iberia => (14, 0x69, 0x62)
    case Wb => (19, 0x77, 0x65)
    case Greece => (14, 0x67, 0x72)
  }

  lemma MarkerSignature(d: Dlc)
    ensures |Marker(d)| >= 6 && Signature(d) == (|Marker(d)|, Marker(d)[4], Marker(d)[5])
  {
  }

  datatype DlcFlags = DlcFlags(
    base: bool,
    heavyCargo: bool,
    specialTransport: bool,
    east: bool,
    north: bool,
    fr: bool,
    it: bool,
    balt: bool,
    rbs: bool,
    iberia: bool,
    wb: bool,
    greece: bool)

  /** The field of `flags` that reports package `d`. */
  function Flag(flags: DlcFlags, d: Dlc): bool
  {
    match d
    case HeavyCargo => flags.heavyCargo
    case SpecialTransport => flags.specialTransport
    case East => flags.east
    case North => flags.north
    case Fr => flags.fr
    case It => flags.it
    case Balt => flags.balt
    case Rbs => flags.rbs
    case Iberia => flags.iberia
    case Wb => flags.wb
    case Greece => flags.greece
  }

  /** `detect_dlcs`: `base` is always set; every other flag is set exactly when its marker
      file exists under the chosen install directory (see DetectDlcsFlag). */
  function DetectDlcs(explicit: Option<Text>, steamPath: Option<Text>, existing: set<Path>): (flags: DlcFlags)
    ensures flags.base
  {
    var install := InstallPath(explicit, steamPath, existing);
    DlcFlags(
      base := true,
      heavyCargo := MarkerPath(install, HeavyCargo) in existing,
      specialTransport := MarkerPath(install, SpecialTransport) in existing,
      east := MarkerPath(install, East) in existing,
      north := MarkerPath(install, North) in existing,
      fr := MarkerPath(install, Fr) in existing,
      it := MarkerPath(install, It) in existing,
      balt := MarkerPath(install, Balt) in existing,
      rbs := MarkerPath(install, Rbs) in existing,
      iberia := MarkerPath(install, Iberia) in existing,
      wb := MarkerPath(install, Wb) in existing,
      greece := MarkerPath(install, Greece) in existing)
  }

  /** Each package flag is set exactly when that package's marker file exists under the
      chosen install directory. */
  lemma DetectDlcsFlag(explicit: Option<Text>, steamPath: Option<Text>, existing: set<Path>, d: Dlc)
    ensures Flag(DetectDlcs(explicit, steamPath, existing), d) <==>
      MarkerPath(InstallPath(explicit, steamPath, existing), d) in existing
  {
    match d
    case HeavyCargo =>
    case SpecialTransport =>
    case East =>
    case North =>
    case Fr =>
    case It =>
    case Balt =>
    case Rbs =>
    case Iberia =>
    case Wb =>
    case Greece =>
  }

  /** Creating one marker file does not move the install directory. */
  lemma InstallIgnoresMarkers(explicit: Option<Text>, steamPath: Option<Text>, existing: set<Path>, d: Dlc)
    ensures var install := InstallPath(explicit, steamPath, existing);
      InstallPath(explicit, steamPath, existing + {MarkerPath(install, d)}) == install
  {
    var install := InstallPath(explicit, steamPath, existing);
    if explicit.None? && steamPath.Some? {
      assert |install| == 1 || |install| == 4;
      assert SteamGamePath(steamPath.value) != MarkerPath(install, d);
    }
  }

  /** The flags are independent: creating the marker file of one package sets that flag
      and leaves `base` and every other flag as it was. */
  lemma AddingMarkerSetsOnlyItsFlag(explicit: Option<Text>, steamPath: Option<Text>, existing: set<Path>, d: Dlc)
    ensures var install := InstallPath(explicit, steamPath, existing);
      var before := DetectDlcs(explicit, steamPath, existing);
      var after := DetectDlcs(explicit, steamPath, existing + {MarkerPath(install, d)});
      after.base && Flag(after, d) && forall e :: e != d ==> Flag(after, e) == Flag(before, e)
  {
    var install := InstallPath(explicit, steamPath, existing);
    var existing' := existing + {MarkerPath(install, d)};
    InstallIgnoresMarkers(explicit, steamPath, existing, d);
    DetectDlcsFlag(explicit, steamPath, existing', d);
    forall e | e != d
      ensures Flag(DetectDlcs(explicit, steamPath, existing'), e) == Flag(DetectDlcs(explicit, steamPath, existing), e)
    {
      OtherMarkerUnaffected(install, existing, d, e);
      DetectDlcsFlag(explicit, steamPath, existing, e);
      DetectDlcsFlag(explicit, steamPath, existing', e);
    }
  }

  /** Creating one package's marker file does not create another's. */
  lemma OtherMarkerUnaffected(install: Path, existing: set<Path>, d: Dlc, e: Dlc)
    requires e != d
    ensures MarkerPath(install, e) in existing + {MarkerPath(install, d)} <==> MarkerPath(install, e) in existing
  {
    MarkersDistinct(d, e);
    assert MarkerPath(install, e)[|install| + 1] == Marker(e);
  }
}
