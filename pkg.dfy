// A package as a repository lists it (pkgs.go): its identity fields, the
// textual forms it is shown and matched under, and the order `Cmp` that
// sorts package lists.

module Packages {
  import opened Text
  import opened Rpmvercmp

  /** A digest as the repository metadata states it: the algorithm's name and
      the hex digits. */
  datatype Checksum = Checksum(kind: Bytes, data: Bytes)

  /** What filepath.Match answers: whether the name matches, or that the
      pattern is malformed (reported as no match plus an error). */
  datatype GlobResult = Matched(ok: bool) | BadPattern

  /** filepath.Match(pattern, name); its glob syntax is not part of this
      model, so every property below holds for any matcher. */
  type Glob = (Bytes, Bytes) -> GlobResult

  const Dash: byte := 0x2D
  const Colon: byte := 0x3A
  const Dot: byte := 0x2E

  datatype Pkg = Pkg(name: Bytes, epoch: int, version: Bytes, release: Bytes, arch: Bytes, chk: Checksum)
  {
    // The renderings. `%d` of the epoch is `Decimal`, so a negative epoch
    // shows its '-'.

    /** NVR is NEVR without its "epoch:": both begin with "name-", and the
        rest of NVR follows the ':' in NEVR. */
    function Nvr(): (r: Bytes)
      ensures |r| > |name| + 1 && r[..|name| + 1] == name + [Dash]
      ensures Nevr() == name + [Dash] + Decimal(epoch) + [Colon] + r[|name| + 1..]
    {
      name + [Dash] + version + [Dash] + release
    }

    function Nevr(): Bytes {
      name + [Dash] + Decimal(epoch) + [Colon] + version + [Dash] + release
    }

    /** NVRA is NVR with ".arch" after it. */
    function Nvra(): (r: Bytes)
      ensures r == Nvr() + [Dot] + arch
    {
      name + [Dash] + version + [Dash] + release + [Dot] + arch
    }

    /** NEVRA is NEVR with ".arch" after it. */
    function Nevra(): (r: Bytes)
      ensures r == Nevr() + [Dot] + arch
    {
      name + [Dash] + Decimal(epoch) + [Colon] + version + [Dash] + release + [Dot] + arch
    }

    /** NA is the name followed by NVRA's ".arch" ending. */
    function Na(): (r: Bytes)
      ensures |r| > |name| && r[..|name|] == name
      ensures Nvra() == Nvr() + r[|name|..]
    {
      var r := name + [Dot] + arch;
      assert r[|name|..] == [Dot] + arch;
      r
    }

    function Name(): Bytes {
      name
    }

    /** ENVRA is "epoch:" in front of NVRA. */
    function Envra(): (r: Bytes)
      ensures r == Decimal(epoch) + [Colon] + Nvra()
    {
      Decimal(epoch) + [Colon] + name + [Dash] + version + [Dash] + release + [Dot] + arch
    }

    // The forms shown to users: the epoch appears only when it is not 0.

    function UInevra(): Bytes {
      if epoch != 0 then Nevra() else Nvra()
    }

    function UInevr(): Bytes {
      if epoch != 0 then Nevr() else Nvr()
    }

    function UIenvra(): Bytes {
      if epoch != 0 then Envra() else Nvra()
    }

    function String(): Bytes {
      UInevra()
    }

    /** The forms Match tries, in its order. */
    function Forms(): seq<Bytes> {
      [UInevra(), UIenvra(), Nvra(), Nvr(), Na(), Name()]
    }

    /** Pkg.Match: the pattern globs one of the six forms. A malformed
        pattern, as reported on the first form, is no match; on the later
        forms only the match flag is looked at, and it is false then. */
    function Match(glob: Glob, pattern: Bytes): (r: bool)
      ensures r <==> glob(pattern, UInevra()) != BadPattern
                     && exists s | s in Forms() :: glob(pattern, s) == Matched(true)
    {
      var first := glob(pattern, UInevra());
      if first.BadPattern? then false
      else if first.ok then true
      else if glob(pattern, UIenvra()) == Matched(true) then true
      else if glob(pattern, Nvra()) == Matched(true) then true
      else if glob(pattern, Nvr()) == Matched(true) then true
      else if glob(pattern, Na()) == Matched(true) then true
      else if glob(pattern, Name()) == Matched(true) then true
      else false
    }

    /** Pkg.Cmp: name byte-wise, then epoch (the difference is returned),
        then version and release under rpmvercmp, then arch and the checksum
        digits byte-wise; the checksum kind is never looked at. The source's
        shortcut for a package compared with itself returns 0, which is what
        the chain gives anyway (CmpReflexive). */
    function Cmp(o: Pkg): (r: int)
      ensures r == 0 <==> (&& name == o.name
                           && epoch == o.epoch
                           && VersionCompare(version, o.version) == 0
                           && VersionCompare(release, o.release) == 0
                           && arch == o.arch
                           && chk.data == o.chk.data)
      ensures name != o.name ==> r == CompareBytes(name, o.name)
    {
      var n := CompareBytes(name, o.name);
      if n != 0 then n
      else if epoch != o.epoch then epoch - o.epoch
      else
        var v := VersionCompare(version, o.version);
        if v != 0 then v
        else
          var rl := VersionCompare(release, o.release);
          if rl != 0 then rl
          else
            var a := CompareBytes(arch, o.arch);
            if a != 0 then a
            else CompareBytes(chk.data, o.chk.data)
    }
  }

  /** ByPkg.Less: the order sort.Sort is given. */
  predicate Less(x: Pkg, y: Pkg) {
    x.Cmp(y) < 0
  }

  // ---------------------------------------------------------------------
  // The user-facing forms

  /** NEVR always carries "epoch:"; the UI forms carry it exactly when the
      epoch is not 0. Name is the name, and String is UInevra. */
  lemma UIFormsShowEpoch(p: Pkg)
    ensures p.UInevra() == p.name + [Dash] + (if p.epoch != 0 then Decimal(p.epoch) + [Colon] else [])
                           + p.version + [Dash] + p.release + [Dot] + p.arch
    ensures p.UInevr() == p.name + [Dash] + (if p.epoch != 0 then Decimal(p.epoch) + [Colon] else [])
                          + p.version + [Dash] + p.release
    ensures p.UIenvra() == (if p.epoch != 0 then Decimal(p.epoch) + [Colon] else []) + p.Nvra()
    ensures p.Nevr() == p.name + [Dash] + Decimal(p.epoch) + [Colon] + p.version + [Dash] + p.release
    ensures p.Name() == p.name
    ensures p.String() == p.UInevra()
  {
    if p.epoch == 0 {
      assert p.name + [Dash] + [] == p.name + [Dash];
      assert [] + p.Nvra() == p.Nvra();
    }
  }

  /** The epoch can be read back from ENVRA: the digits before its first ':'
      are the epoch, and NVRA follows. */
  lemma EnvraEpochRoundTrip(p: Pkg)
    ensures var k := |Decimal(p.epoch)|;
            && k < |p.Envra()|
            && ParseDecimal(p.Envra()[..k]) == p.epoch
            && p.Envra()[k] == Colon
            && p.Envra()[k + 1..] == p.Nvra()
            && Colon !in p.Envra()[..k]
  {
    var d := Decimal(p.epoch);
    var e := p.Envra();
    assert e == d + ([Colon] + p.Nvra());
    assert e[..|d|] == d;
    DecimalRoundTrip(p.epoch);
    DecimalHasNoColon(p.epoch);
  }

  lemma DecimalHasNoColon(n: int)
    ensures Colon !in Decimal(n)
  {
    var d := Decimal(n);
    if n >= 0 {
      assert forall i | 0 <= i < |d| :: IsDigit(d[i]);
    } else {
      var m := DecimalNat(-n);
      assert d == [Dash] + m;
      assert forall i | 0 <= i < |m| :: IsDigit(m[i]);
    }
  }

  // ---------------------------------------------------------------------
  // Match

  /** Match never succeeds for a pattern the matcher rejects on UInevra, and
      succeeds as soon as any form matches otherwise. */
  lemma MatchForms(glob: Glob, pattern: Bytes, p: Pkg, i: nat)
    requires i < 6 && glob(pattern, p.UInevra()) != BadPattern
    requires glob(pattern, p.Forms()[i]) == Matched(true)
    ensures p.Match(glob, pattern)
  {
    assert p.Forms()[i] in p.Forms();
  }

  // ---------------------------------------------------------------------
  // Cmp is a total preorder, so Less is a strict weak order

  lemma CmpReflexive(x: Pkg)
    ensures x.Cmp(x) == 0
  {
    VersionCompareReflexive(x.version);
    VersionCompareReflexive(x.release);
  }

  lemma CmpAntisymmetric(x: Pkg, y: Pkg)
    ensures y.Cmp(x) == -x.Cmp(y)
  {
    CompareBytesAntisymmetric(x.name, y.name);
    VersionCompareAntisymmetric(x.version, y.version);
    VersionCompareAntisymmetric(x.release, y.release);
    CompareBytesAntisymmetric(x.arch, y.arch);
    CompareBytesAntisymmetric(x.chk.data, y.chk.data);
  }

  /** Changing a package's checksum kind changes nothing in the order. */
  lemma CmpIgnoresKind(x: Pkg, y: Pkg, k1: Bytes, k2: Bytes)
    ensures x.(chk := Checksum(k1, x.chk.data)).Cmp(y.(chk := Checksum(k2, y.chk.data))) == x.Cmp(y)
  {
  }

  /** One level of a lexicographic order: the level's comparisons of x, y
      and z, and those of the levels after it. */
  lemma LexTransitive(pxy: int, pyz: int, pxz: int, rxy: int, ryz: int, rxz: int)
    requires pxy <= 0 && pyz <= 0 ==> pxz <= 0
    requires pxy == 0 ==> pxz == pyz
    requires pyz == 0 ==> pxz == pxy
    requires pxz == 0 ==> pxy == -pyz
    requires rxy <= 0 && ryz <= 0 ==> rxz <= 0
    requires (if pxy != 0 then pxy else rxy) <= 0
    requires (if pyz != 0 then pyz else ryz) <= 0
    ensures (if pxz != 0 then pxz else rxz) <= 0
  {
  }

  lemma BytesLevel(x: Bytes, y: Bytes, z: Bytes)
    ensures CompareBytes(x, y) <= 0 && CompareBytes(y, z) <= 0 ==> CompareBytes(x, z) <= 0
    ensures CompareBytes(x, z) == 0 ==> CompareBytes(x, y) == -CompareBytes(y, z)
  {
    if CompareBytes(x, y) <= 0 && CompareBytes(y, z) <= 0 {
      CompareBytesTransitive(x, y, z);
    }
    CompareBytesAntisymmetric(x, y);
  }

  lemma VersionLevel(x: Bytes, y: Bytes, z: Bytes)
    ensures VersionCompare(x, y) <= 0 && VersionCompare(y, z) <= 0 ==> VersionCompare(x, z) <= 0
    ensures VersionCompare(x, y) == 0 ==> VersionCompare(x, z) == VersionCompare(y, z)
    ensures VersionCompare(y, z) == 0 ==> VersionCompare(x, z) == VersionCompare(x, y)
    ensures VersionCompare(x, z) == 0 ==> VersionCompare(x, y) == -VersionCompare(y, z)
  {
    if VersionCompare(x, y) <= 0 && VersionCompare(y, z) <= 0 {
      VersionCompareTransitive(x, y, z);
    }
    if VersionCompare(x, y) == 0 {
      VersionCompareEquivalent(x, y, z);
    }
    if VersionCompare(y, z) == 0 {
      VersionCompareAntisymmetric(y, z);
      VersionCompareEquivalent(z, y, x);
      VersionCompareAntisymmetric(x, z);
      VersionCompareAntisymmetric(x, y);
    }
    if VersionCompare(x, z) == 0 {
      VersionCompareEquivalent(x, z, y);
      VersionCompareAntisymmetric(y, z);
    }
  }

  // Cmp seen level by level: each level decides unless it ties, and then
  // the levels after it decide.

  function Then(first: int, rest: int): int {
    if first != 0 then first else rest
  }

  function ArchOrder(x: Pkg, y: Pkg): int {
    Then(CompareBytes(x.arch, y.arch), CompareBytes(x.chk.data, y.chk.data))
  }

  function ReleaseOrder(x: Pkg, y: Pkg): int {
    Then(VersionCompare(x.release, y.release), ArchOrder(x, y))
  }

  function VersionOrder(x: Pkg, y: Pkg): int {
    Then(VersionCompare(x.version, y.version), ReleaseOrder(x, y))
  }

  function EpochOrder(x: Pkg, y: Pkg): int {
    Then(x.epoch - y.epoch, VersionOrder(x, y))
  }

  lemma CmpLevels(x: Pkg, y: Pkg)
    ensures x.Cmp(y) == Then(CompareBytes(x.name, y.name), EpochOrder(x, y))
  {
  }

  lemma ArchOrderTransitive(x: Pkg, y: Pkg, z: Pkg)
    requires ArchOrder(x, y) <= 0 && ArchOrder(y, z) <= 0
    ensures ArchOrder(x, z) <= 0
  {
    BytesLevel(x.arch, y.arch, z.arch);
    BytesLevel(x.chk.data, y.chk.data, z.chk.data);
    LexTransitive(CompareBytes(x.arch, y.arch), CompareBytes(y.arch, z.arch), CompareBytes(x.arch, z.arch),
                  CompareBytes(x.chk.data, y.chk.data), CompareBytes(y.chk.data, z.chk.data),
                  CompareBytes(x.chk.data, z.chk.data));
  }

  lemma ReleaseOrderTransitive(x: Pkg, y: Pkg, z: Pkg)
    requires ReleaseOrder(x, y) <= 0 && ReleaseOrder(y, z) <= 0
    ensures ReleaseOrder(x, z) <= 0
  {
    if ArchOrder(x, y) <= 0 && ArchOrder(y, z) <= 0 {
      ArchOrderTransitive(x, y, z);
    }
    VersionLevel(x.release, y.release, z.release);
    LexTransitive(VersionCompare(x.release, y.release), VersionCompare(y.release, z.release),
                  VersionCompare(x.release, z.release), ArchOrder(x, y), ArchOrder(y, z), ArchOrder(x, z));
  }

  lemma VersionOrderTransitive(x: Pkg, y: Pkg, z: Pkg)
    requires VersionOrder(x, y) <= 0 && VersionOrder(y, z) <= 0
    ensures VersionOrder(x, z) <= 0
  {
    if ReleaseOrder(x, y) <= 0 && ReleaseOrder(y, z) <= 0 {
      ReleaseOrderTransitive(x, y, z);
    }
    VersionLevel(x.version, y.version, z.version);
    LexTransitive(VersionCompare(x.version, y.version), VersionCompare(y.version, z.version),
                  VersionCompare(x.version, z.version), ReleaseOrder(x, y), ReleaseOrder(y, z), ReleaseOrder(x, z));
  }

  lemma EpochOrderTransitive(x: Pkg, y: Pkg, z: Pkg)
    requires EpochOrder(x, y) <= 0 && EpochOrder(y, z) <= 0
    ensures EpochOrder(x, z) <= 0
  {
    if VersionOrder(x, y) <= 0 && VersionOrder(y, z) <= 0 {
      VersionOrderTransitive(x, y, z);
    }
    LexTransitive(x.epoch - y.epoch, y.epoch - z.epoch, x.epoch - z.epoch,
                  VersionOrder(x, y), VersionOrder(y, z), VersionOrder(x, z));
  }

  /** x <= y and y <= z give x <= z: the transitivity sort.Sort relies on. */
  lemma CmpTransitive(x: Pkg, y: Pkg, z: Pkg)
    requires x.Cmp(y) <= 0 && y.Cmp(z) <= 0
    ensures x.Cmp(z) <= 0
  {
    CmpLevels(x, y);
    CmpLevels(y, z);
    CmpLevels(x, z);
    if EpochOrder(x, y) <= 0 && EpochOrder(y, z) <= 0 {
      EpochOrderTransitive(x, y, z);
    }
    BytesLevel(x.name, y.name, z.name);
    LexTransitive(CompareBytes(x.name, y.name), CompareBytes(y.name, z.name), CompareBytes(x.name, z.name),
                  EpochOrder(x, y), EpochOrder(y, z), EpochOrder(x, z));
  }

  /** Cmp-equality is an equivalence: transitive as well as symmetric. */
  lemma CmpEquivalence(x: Pkg, y: Pkg, z: Pkg)
    requires x.Cmp(y) == 0 && y.Cmp(z) == 0
    ensures x.Cmp(z) == 0
  {
    CmpTransitive(x, y, z);
    CmpAntisymmetric(x, y);
    CmpAntisymmetric(y, z);
    CmpAntisymmetric(x, z);
    CmpTransitive(z, y, x);
  }

  /** ByPkg.Less is a strict weak order: irreflexive, transitive, and with
      a transitive incomparability. */
  lemma LessStrictWeakOrder(x: Pkg, y: Pkg, z: Pkg)
    ensures !Less(x, x)
    ensures Less(x, y) && Less(y, z) ==> Less(x, z)
    ensures !Less(x, y) && !Less(y, x) && !Less(y, z) && !Less(z, y) ==> !Less(x, z) && !Less(z, x)
  {
    CmpReflexive(x);
    CmpAntisymmetric(x, y);
    CmpAntisymmetric(y, z);
    CmpAntisymmetric(x, z);
    if Less(x, y) && Less(y, z) {
      CmpTransitive(x, y, z);
      if x.Cmp(z) == 0 {
        CmpTransitive(z, x, y);
      }
    }
    if !Less(x, y) && !Less(y, x) && !Less(y, z) && !Less(z, y) {
      CmpEquivalence(x, y, z);
    }
  }
}
