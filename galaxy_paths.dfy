/**
  Paths of the MaNGA MPL10 data products (FileDir_generator.py).

  A galaxy observation is identified by its PLATE and IFUDESIGN numbers; its
  MAPS file lives at `MPL10/<plate>/<ifu>/manga-<plate>-<ifu>-MAPS-SPX-MILESHC-MASTARHC2.fits.gz`.
  `GenerateDirFrom` builds that path for every row of the sample catalog,
  whose two columns arrive here already converted to strings.
 */
module GalaxyPaths {

  /** The directory every path starts with: the data release. */
  const ReleaseDir: string := "MPL10/"

  /** What every file name starts with. */
  const NamePrefix: string := "manga-"

  /** What every file name ends with: the product and its compression. */
  const ProductSuffix: string := "-MAPS-SPX-MILESHC-MASTARHC2.fits.gz"

  predicate IsPrefix(p: string, s: string) {
    |p| <= |s| && s[..|p|] == p
  }

  predicate IsSuffix(p: string, s: string) {
    |p| <= |s| && s[|s| - |p|..] == p
  }

  /** No path separator inside a string (true of every decimal plate or IFU number). */
  predicate SlashFree(s: string) {
    forall i :: 0 <= i < |s| ==> s[i] != '/'
  }

  /** `dapdir`: the directory holding one galaxy's products. */
  function DapDir(plate: string, ifu: string): (d: string)
    ensures IsPrefix(ReleaseDir, d)
    ensures |d| == |ReleaseDir| + |plate| + |ifu| + 2 && d[|d| - 1] == '/'
  {
    ReleaseDir + plate + "/" + ifu + "/"
  }

  /** `dapname`: the file name of one galaxy's MAPS product. */
  function DapName(plate: string, ifu: string): (n: string)
    ensures IsPrefix(NamePrefix, n) && IsSuffix(ProductSuffix, n)
    ensures |n| == |NamePrefix| + |plate| + |ifu| + 1 + |ProductSuffix|
    ensures SlashFree(plate) && SlashFree(ifu) ==> SlashFree(n)
  {
    SlashFreeConcat5(NamePrefix, plate, "-", ifu, ProductSuffix);
    NamePrefix + plate + "-" + ifu + ProductSuffix
  }

  /** Five parts free of '/' give a concatenation free of '/'. */
  lemma SlashFreeConcat5(a: string, b: string, c: string, d: string, e: string)
    ensures SlashFree(a) && SlashFree(b) && SlashFree(c) && SlashFree(d) && SlashFree(e) ==>
              SlashFree(a + b + c + d + e)
  {
  }

  lemma PrefixOfConcat(p: string, a: string, b: string)
    requires IsPrefix(p, a)
    ensures IsPrefix(p, a + b)
  {
    assert (a + b)[..|p|] == a[..|p|];
  }

  lemma SuffixOfConcat(p: string, a: string, b: string)
    requires IsSuffix(p, b)
    ensures IsSuffix(p, a + b)
  {
    assert (a + b)[|a + b| - |p|..] == b[|b| - |p|..];
  }

  /**
    `local`: the full path of one galaxy's MAPS product. It starts with the
    release directory and ends with the product suffix; for slash-free
    numbers its last '/' closes `dapdir`, so splitting the path there gives
    back `dapdir` and `dapname`.
   */
  function DapPath(plate: string, ifu: string): (p: string)
    ensures IsPrefix(ReleaseDir, p) && IsSuffix(ProductSuffix, p)
    ensures |p| == |DapDir(plate, ifu)| + |DapName(plate, ifu)|
    ensures SlashFree(plate) && SlashFree(ifu) ==>
              var cut := |DapDir(plate, ifu)|;
              p[cut - 1] == '/' && SlashFree(p[cut..]) &&
              p[..cut] == DapDir(plate, ifu) && p[cut..] == DapName(plate, ifu)
  {
    var d, n := DapDir(plate, ifu), DapName(plate, ifu);
    PrefixOfConcat(ReleaseDir, d, n);
    SuffixOfConcat(ProductSuffix, d, n);
    assert (d + n)[..|d|] == d && (d + n)[|d|..] == n;
    d + n
  }

  /** The path written out as one concatenation. */
  lemma DapPathSpelledOut(plate: string, ifu: string)
    ensures DapPath(plate, ifu)
         == "MPL10/" + plate + "/" + ifu + "/" + "manga-" + plate + "-" + ifu
            + "-MAPS-SPX-MILESHC-MASTARHC2.fits.gz"
  {
    Regroup5(ReleaseDir, plate, ifu, NamePrefix, ProductSuffix);
  }

  lemma Regroup5(r: string, p: string, i: string, m: string, s: string)
    ensures (r + p + "/" + i + "/") + (m + p + "-" + i + s) == r + p + "/" + i + "/" + m + p + "-" + i + s
  {
  }

  /**
    `generate_dir_from` after the catalog has been read: one path per row of
    the PLATE column, in row order, each built from the same row of both columns.
   */
  method GenerateDirFrom(plate: seq<string>, ifu: seq<string>) returns (galDir: seq<string>)
    requires |plate| <= |ifu|
    ensures |galDir| == |plate|
    ensures forall i :: 0 <= i < |galDir| ==> galDir[i] == DapPath(plate[i], ifu[i])
  {
    galDir := [];
    var i := 0;
    while i < |plate|
      invariant 0 <= i <= |plate|
      invariant |galDir| == i
      invariant forall j :: 0 <= j < i ==> galDir[j] == DapPath(plate[j], ifu[j])
    {
      var dapdir := DapDir(plate[i], ifu[i]);
      var dapname := DapName(plate[i], ifu[i]);
      var local := dapdir + dapname;
      galDir := galDir + [local];
      i := i + 1;
    }
  }

  /** The characters of `s` before its first '/'. */
  function Segment(s: string): (r: string)
    ensures IsPrefix(r, s) && SlashFree(r)
  {
    if s == [] || s[0] == '/' then [] else [s[0]] + Segment(s[1..])
  }

  lemma {:induction false} SegmentOfJoin(a: string, b: string)
    requires SlashFree(a)
    ensures Segment(a + "/" + b) == a
  {
    if a == [] {
      assert (a + "/" + b)[0] == '/';
    } else {
      assert (a + "/" + b)[1..] == a[1..] + "/" + b;
      SegmentOfJoin(a[1..], b);
    }
  }

  /** Joining two slash-free strings with '/' can be undone. */
  lemma SlashJoinInjective(a: string, b: string, c: string, d: string)
    requires SlashFree(a) && SlashFree(c)
    requires a + "/" + b == c + "/" + d
    ensures a == c && b == d
  {
    SegmentOfJoin(a, b);
    SegmentOfJoin(c, d);
    assert b == (a + "/" + b)[|a| + 1..];
    assert d == (c + "/" + d)[|c| + 1..];
  }

  lemma Regroup(r: string, p: string, i: string, n: string)
    ensures (r + p + "/" + i + "/") + n == r + (p + "/" + (i + "/" + n))
  {
  }

  lemma DropCommonPrefix(r: string, x: string, y: string)
    requires r + x == r + y
    ensures x == y
  {
    assert x == (r + x)[|r|..];
    assert y == (r + y)[|r|..];
  }

  /**
    Different (plate, ifu) pairs never share a path, so the list addresses
    every galaxy separately.
   */
  lemma DapPathInjective(plate1: string, ifu1: string, plate2: string, ifu2: string)
    requires SlashFree(plate1) && SlashFree(ifu1) && SlashFree(plate2) && SlashFree(ifu2)
    requires DapPath(plate1, ifu1) == DapPath(plate2, ifu2)
    ensures plate1 == plate2 && ifu1 == ifu2
  {
    var name1, name2 := DapName(plate1, ifu1), DapName(plate2, ifu2);
    Regroup(ReleaseDir, plate1, ifu1, name1);
    Regroup(ReleaseDir, plate2, ifu2, name2);
    DropCommonPrefix(ReleaseDir, plate1 + "/" + (ifu1 + "/" + name1), plate2 + "/" + (ifu2 + "/" + name2));
    SlashJoinInjective(plate1, ifu1 + "/" + name1, plate2, ifu2 + "/" + name2);
    SlashJoinInjective(ifu1, name1, ifu2, name2);
  }

  /** One decimal digit. */
  function DigitChar(d: nat): (c: char)
    requires d < 10
    ensures '0' <= c <= '9' && c as int - '0' as int == d
  {
    ('0' as int + d) as char
  }

  /** The decimal spelling of a catalog number, as `astype('str')` and `str` give it. */
  function Decimal(n: nat): (s: string)
    ensures |s| >= 1 && (n >= 10 ==> |s| >= 2)
    ensures forall i :: 0 <= i < |s| ==> '0' <= s[i] <= '9'
    ensures n == 0 ==> s == "0"
    ensures n > 0 ==> s[0] != '0'
  {
    if n < 10 then [DigitChar(n)] else Decimal(n / 10) + [DigitChar(n % 10)]
  }

  /** The number a string of decimal digits denotes, most significant digit first. */
  function DecimalValue(s: string): int
    decreases |s|
  {
    if s == [] then 0 else DecimalValue(s[..|s| - 1]) * 10 + (s[|s| - 1] as int - '0' as int)
  }

  /** Reading the spelling back in base 10 gives the number. */
  lemma {:induction false} DecimalRoundTrip(n: nat)
    ensures DecimalValue(Decimal(n)) == n
  {
    var s := Decimal(n);
    if n < 10 {
      assert s[..|s| - 1] == [];
    } else {
      assert s[..|s| - 1] == Decimal(n / 10);
      DecimalRoundTrip(n / 10);
    }
  }

  lemma {:induction false} DecimalInjective(a: nat, b: nat)
    requires Decimal(a) == Decimal(b)
    ensures a == b
  {
    if a >= 10 && b >= 10 {
      var da, db := Decimal(a), Decimal(b);
      assert da[|da| - 1] == DigitChar(a % 10);
      assert db[|db| - 1] == DigitChar(b % 10);
      assert Decimal(a / 10) == da[..|da| - 1];
      assert Decimal(b / 10) == db[..|db| - 1];
      DecimalInjective(a / 10, b / 10);
    } else if a < 10 && b < 10 {
      assert Decimal(a)[0] == DigitChar(a);
    }
  }

  lemma DecimalSlashFree(n: nat)
    ensures SlashFree(Decimal(n))
  {
  }

  /** Two catalog rows that get the same path have the same numbers. */
  lemma SamePathSameGalaxy(plate1: nat, ifu1: nat, plate2: nat, ifu2: nat)
    requires DapPath(Decimal(plate1), Decimal(ifu1)) == DapPath(Decimal(plate2), Decimal(ifu2))
    ensures plate1 == plate2 && ifu1 == ifu2
  {
    DecimalSlashFree(plate1);
    DecimalSlashFree(ifu1);
    DecimalSlashFree(plate2);
    DecimalSlashFree(ifu2);
    DapPathInjective(Decimal(plate1), Decimal(ifu1), Decimal(plate2), Decimal(ifu2));
    DecimalInjective(plate1, plate2);
    DecimalInjective(ifu1, ifu2);
  }
}
