// The rpmdb version of a package list (pkgs.go): a counter and an MD5
// digest fed, package by package, with the package's UIenvra form (ENVRA
// when the epoch is non-zero, NVRA otherwise), then the checksum kind and
// digits when a kind is set; once finalised it reads "count:hexdigest".
//
// The digest itself is a parameter (`md5`): the model keeps the exact byte
// stream the digest is fed, and the result is `md5` of that stream.

module Rpmdbv {
  import opened Wrappers
  import opened Text
  import opened Packages
  import opened PackageSets

  /** The kind recorded after finalising: "md5". */
  const Md5Kind: Bytes := [0x6D, 0x64, 0x35]

  /** What `add` writes for one package: its UIenvra form, then the checksum
      kind and digits when a kind is set. */
  function Entry(p: Pkg): Bytes {
    p.UIenvra() + (if p.chk.kind != [] then p.chk.kind + p.chk.data else [])
  }

  /** The stream the digest has been fed after `add` of each of `ps`. */
  function DigestInput(ps: seq<Pkg>): Bytes {
    if ps == [] then [] else DigestInput(ps[..|ps| - 1]) + Entry(ps[|ps| - 1])
  }

  /** The stream of a list is the streams of its parts one after the other:
      each package contributes its own entry, in list order. */
  lemma {:induction false} DigestInputAppend(a: seq<Pkg>, b: seq<Pkg>)
    ensures DigestInput(a + b) == DigestInput(a) + DigestInput(b)
    decreases |b|
  {
    if b == [] {
      assert a + b == a;
    } else {
      var b', x := b[..|b| - 1], b[|b| - 1];
      assert a + b == (a + b') + [x] by {
        assert b == b' + [x];
      }
      assert DigestInput(a + b) == DigestInput(a + b') + Entry(x) by {
        var ab := (a + b') + [x];
        assert ab[..|ab| - 1] == a + b';
      }
      DigestInputAppend(a, b');
    }
  }

  /** The stream for one package is its entry, which begins with UIenvra and
      carries the checksum exactly when its kind is set. */
  lemma DigestInputSingle(p: Pkg)
    ensures DigestInput([p]) == Entry(p)
    ensures Entry(p)[..|p.UIenvra()|] == p.UIenvra()
    ensures p.chk.kind == [] ==> Entry(p) == p.UIenvra()
    ensures p.chk.kind != [] ==> Entry(p)[|p.UIenvra()|..] == p.chk.kind + p.chk.data
  {
    assert [p][..0] == [];
    assert Entry(p) == DigestInput([]) + Entry(p);
    if p.chk.kind == [] {
      assert Entry(p) == p.UIenvra() + [];
    }
  }

  lemma DigestInputStep(ps: seq<Pkg>, i: nat)
    requires i < |ps|
    ensures DigestInput(ps[..i + 1]) == DigestInput(ps[..i]) + Entry(ps[i])
  {
    assert ps[..i + 1][..i] == ps[..i];
  }

  class RPMDBV {
    var count: int
    var chk: Checksum
    /** The running digest: Some(the bytes fed so far), or None once `Done`
        has set it to nil. */
    var hash: Option<Bytes>

    /** iRPMDBVmake: a zero count and checksum and a fresh digest. */
    constructor ()
      ensures count == 0 && chk == Checksum([], []) && hash == Some([])
    {
      count := 0;
      chk := Checksum([], []);
      hash := Some([]);
    }

    /** add: one more package; its entry goes into the digest. (Adding after
        `Done` dereferences the nil digest, so it is excluded.) */
    method Add(pkg: Pkg)
      requires hash.Some?
      modifies this
      ensures count == old(count) + 1
      ensures chk == old(chk)
      ensures hash == Some(old(hash.value) + Entry(pkg))
    {
      count := count + 1;
      var fed := hash.value + pkg.UIenvra();
      if pkg.chk.kind != [] {
        fed := fed + pkg.chk.kind;
        fed := fed + pkg.chk.data;
        assert fed == hash.value + (pkg.UIenvra() + (pkg.chk.kind + pkg.chk.data));
      } else {
        assert fed == hash.value + (pkg.UIenvra() + []);
      }
      hash := Some(fed);
    }

    /** done: record the digest of everything fed, in lower-case hex, under
        the kind "md5", and drop the digest. */
    method Done(md5: Bytes -> Bytes)
      requires hash.Some?
      modifies this
      ensures chk == Checksum(Md5Kind, Hex(md5(old(hash.value))))
      ensures hash == None
      ensures count == old(count)
    {
      chk := Checksum(Md5Kind, Hex(md5(hash.value)));
      hash := None;
    }

    /** String: "count:data". The count is read back from the digits before
        the first ':', and the checksum digits follow it. */
    function String(): (r: Bytes)
      reads this
      ensures var k := |Decimal(count)|;
              && k < |r|
              && r[..k] == Decimal(count)
              && ParseDecimal(r[..k]) == count
              && Colon !in r[..k]
              && r[k] == Colon
              && r[k + 1..] == chk.data
    {
      DecimalRoundTrip(count);
      DecimalHasNoColon(count);
      var d := Decimal(count);
      var r := d + [Colon] + chk.data;
      assert r[..|d|] == d;
      r
    }

    function Count(): int
      reads this
    {
      count
    }
  }

  /** Pkgs.RPMDBVersion: count the packages and digest their entries in
      list order. */
  method RPMDBVersion(pkgs: Pkgs, md5: Bytes -> Bytes) returns (r: RPMDBV)
    ensures fresh(r)
    ensures r.count == |pkgs.pkgs|
    ensures r.chk == Checksum(Md5Kind, Hex(md5(DigestInput(pkgs.pkgs))))
    ensures r.hash == None
  {
    r := new RPMDBV();
    var ps := pkgs.pkgs;
    for i := 0 to |ps|
      invariant r.count == i
      invariant r.hash == Some(DigestInput(ps[..i]))
    {
      DigestInputStep(ps, i);
      r.Add(ps[i]);
    }
    assert ps[..|ps|] == ps;
    r.Done(md5);
  }
}
