/** File names, the output directory as a map, and the joiner that reads it back. */
module FileStore {
  import opened MachineTypes

  type Files = map<string, Bytes>

  // ---------------------------------------------------------------------------
  // Names
  // ---------------------------------------------------------------------------

  const DIGITS := "0123456789"

  /** `std::to_string` of an unsigned integer. */
  function Decimal(n: nat): (s: string)
    ensures |s| > 0
    ensures forall c :: c in s ==> c in DIGITS
  {
    if n < 10 then [DIGITS[n]] else Decimal(n / 10) + [DIGITS[n % 10]]
  }

  function DigitValue(c: char): nat
    requires c in DIGITS
  {
    c as int - '0' as int
  }

  function DecimalValue(s: string): nat
    requires forall c :: c in s ==> c in DIGITS
  {
    if s == [] then 0 else 10 * DecimalValue(s[..|s| - 1]) + DigitValue(s[|s| - 1])
  }

  lemma {:induction false} ValueOfDecimal(n: nat)
    ensures DecimalValue(Decimal(n)) == n
  {
    var s := Decimal(n);
    if n >= 10 {
      ValueOfDecimal(n / 10);
      assert s[..|s| - 1] == Decimal(n / 10);
    } else {
      assert s[..|s| - 1] == [];
    }
  }

  lemma {:induction false} NoLeadingZero(n: nat)
    ensures |Decimal(n)| > 1 ==> Decimal(n)[0] != '0'
    ensures n > 0 ==> Decimal(n)[0] != '0'
  {
    if n >= 10 {
      NoLeadingZero(n / 10);
      assert Decimal(n)[0] == Decimal(n / 10)[0];
    }
  }

  lemma DigitBack(c: char)
    requires c in DIGITS
    ensures DigitValue(c) < 10 && DIGITS[DigitValue(c)] == c
  {
  }

  lemma DecimalNext(n: nat, digit: nat)
    requires n > 0 && digit < 10
    ensures Decimal(10 * n + digit) == Decimal(n) + [DIGITS[digit]]
  {
  }

  lemma OneDigit(c: char)
    requires c in DIGITS
    ensures DecimalValue([c]) == DigitValue(c) && Decimal(DigitValue(c)) == [c]
  {
    assert [c][..0] == [];
    DigitBack(c);
  }

  lemma ValueSnoc(s: string, c: char)
    requires (forall d :: d in s ==> d in DIGITS) && c in DIGITS
    ensures DecimalValue(s + [c]) == 10 * DecimalValue(s) + DigitValue(c)
  {
    assert (s + [c])[..|s|] == s;
  }

  /** Every digit string without a leading zero is what its value prints as. */
  lemma {:induction false} DecimalIsOnly(s: string)
    requires s != [] && (forall c :: c in s ==> c in DIGITS) && (|s| > 1 ==> s[0] != '0')
    ensures s == Decimal(DecimalValue(s))
    decreases |s|
  {
    var front, last := s[..|s| - 1], s[|s| - 1];
    assert s == front + [last];
    if front == [] {
      OneDigit(last);
    } else {
      DecimalIsOnly(front);
      LeadingDigitCounts(front);
      ValueSnoc(front, last);
      DecimalNext(DecimalValue(front), DigitValue(last));
      DigitBack(last);
    }
  }

  lemma {:induction false} LeadingDigitCounts(s: string)
    requires s != [] && (forall c :: c in s ==> c in DIGITS) && s[0] != '0'
    ensures DecimalValue(s) > 0
    decreases |s|
  {
    if |s| > 1 {
      LeadingDigitCounts(s[..|s| - 1]);
    } else {
      assert s[0] in DIGITS && s[..0] == [];
    }
  }

  /** The name the server gives a piece, and the name the joiner looks for. */
  function FileName(uuid: uint64, index: nat): string {
    Decimal(uuid) + ".hcx." + Decimal(index)
  }

  function Path(uuid: uint64, index: nat): string {
    "out/" + FileName(uuid, index)
  }

  const RECONSTRUCTED := "out/reconstructed.png"

  lemma FirstDot(uuid: uint64, index: nat)
    ensures var s := FileName(uuid, index);
            |Decimal(uuid)| < |s| && s[|Decimal(uuid)|] == '.'
            && (forall i :: 0 <= i < |Decimal(uuid)| ==> s[i] != '.')
            && s[..|Decimal(uuid)|] == Decimal(uuid)
            && s[|Decimal(uuid)|..|Decimal(uuid)| + 5] == ".hcx."
            && s[|Decimal(uuid)| + 5..] == Decimal(index)
  {
    var s, d := FileName(uuid, index), Decimal(uuid);
    forall i | 0 <= i < |d| ensures s[i] != '.' {
      assert s[i] == d[i] && d[i] in d;
    }
  }

  lemma SomePath()
    ensures Path(42, 7) == "out/42.hcx.7" && Path(5, 10) == "out/5.hcx.10"
  {
    assert Decimal(42) == "4" + "2" && Decimal(10) == "1" + "0" && Decimal(5) == "5" && Decimal(7) == "7";
  }

  /** Different (uuid, index) pairs never share a file. */
  lemma PathInjective(u: uint64, i: nat, v: uint64, j: nat)
    ensures Path(u, i) == Path(v, j) <==> u == v && i == j
  {
    if Path(u, i) == Path(v, j) {
      var s := FileName(u, i);
      assert s == Path(u, i)[4..] && FileName(v, j) == Path(v, j)[4..];
      FirstDot(u, i);
      FirstDot(v, j);
      assert |Decimal(u)| == |Decimal(v)|;
      ValueOfDecimal(u);
      ValueOfDecimal(v);
      ValueOfDecimal(i);
      ValueOfDecimal(j);
    }
  }

  lemma ReconstructedIsNoPiece(uuid: uint64, index: nat)
    ensures Path(uuid, index) != RECONSTRUCTED
  {
    var d := Decimal(uuid);
    assert Path(uuid, index)[4] == d[0];
    assert d[0] in d;
  }

  // ---------------------------------------------------------------------------
  // Saving
  // ---------------------------------------------------------------------------

  /** An existing file is never overwritten. */
  function Save(files: Files, path: string, binary: Bytes): Files {
    if path in files then files else files[path := binary]
  }

  /** The first `n` iterations of a save loop over given names. */
  function SaveNamed(files: Files, names: seq<string>, contents: seq<Bytes>, n: nat): Files
    requires n <= |contents| <= |names|
  {
    if n == 0 then files else Save(SaveNamed(files, names, contents, n - 1), names[n - 1], contents[n - 1])
  }

  lemma SaveEffect(files: Files, path: string, binary: Bytes)
    ensures var r := Save(files, path, binary);
            && (forall p :: p in r <==> p in files || p == path)
            && (forall p :: p in files ==> r[p] == files[p])
            && (path !in files ==> r[path] == binary)
  {
  }

  lemma {:induction false} SaveNamedKeeps(files: Files, names: seq<string>, contents: seq<Bytes>, n: nat)
    requires n <= |contents| <= |names|
    ensures var r := SaveNamed(files, names, contents, n);
            && (forall p :: p in r <==> p in files || p in names[..n])
            && (forall p :: p in files ==> r[p] == files[p])
    decreases n
  {
    if n > 0 {
      SaveNamedKeeps(files, names, contents, n - 1);
      SaveEffect(SaveNamed(files, names, contents, n - 1), names[n - 1], contents[n - 1]);
      assert names[..n] == names[..n - 1] + [names[n - 1]];
    }
  }

  lemma {:induction false} SaveNamedStores(files: Files, names: seq<string>, contents: seq<Bytes>, n: nat, i: nat)
    requires i < n <= |contents| <= |names| && names[i] !in files
    requires forall j :: 0 <= j < |names| && j != i ==> names[j] != names[i]
    ensures var r := SaveNamed(files, names, contents, n); names[i] in r && r[names[i]] == contents[i]
    decreases n
  {
    SaveEffect(SaveNamed(files, names, contents, n - 1), names[n - 1], contents[n - 1]);
    if i < n - 1 {
      SaveNamedStores(files, names, contents, n - 1, i);
    } else {
      SaveNamedKeeps(files, names, contents, i);
    }
  }

  lemma SaveNamedEffect(files: Files, names: seq<string>, contents: seq<Bytes>, n: nat)
    requires n <= |contents| <= |names|
    requires forall i, j :: 0 <= i < j < |names| ==> names[i] != names[j]
    ensures var r := SaveNamed(files, names, contents, n);
            && (forall p :: p in r <==> p in files || p in names[..n])
            && (forall p :: p in files ==> r[p] == files[p])
            && (forall i :: 0 <= i < n && names[i] !in files ==> r[names[i]] == contents[i])
  {
    SaveNamedKeeps(files, names, contents, n);
    forall i | 0 <= i < n && names[i] !in files
      ensures names[i] in names[..n] && SaveNamed(files, names, contents, n)[names[i]] == contents[i]
    {
      assert names[..n][i] == names[i];
      SaveNamedStores(files, names, contents, n, i);
    }
  }

  function Paths(uuid: uint64, n: nat): (r: seq<string>)
    ensures |r| == n
    ensures forall i :: 0 <= i < n ==> r[i] == Path(uuid, i)
  {
    seq(n, i requires 0 <= i < n => Path(uuid, i))
  }

  lemma PathsDistinct(uuid: uint64, n: nat)
    ensures forall i, j :: 0 <= i < j < n ==> Paths(uuid, n)[i] != Paths(uuid, n)[j]
  {
    forall i, j | 0 <= i < j < n ensures Paths(uuid, n)[i] != Paths(uuid, n)[j] {
      PathInjective(uuid, i, uuid, j);
    }
  }

  /** The files after a connection saved `contents`. */
  function SaveAll(files: Files, uuid: uint64, contents: seq<Bytes>): Files {
    SaveNamed(files, Paths(uuid, |contents|), contents, |contents|)
  }

  /** Saving adds exactly the missing pieces and leaves every file that was there alone. */
  lemma SaveAllEffect(files: Files, uuid: uint64, contents: seq<Bytes>)
    ensures var r := SaveAll(files, uuid, contents);
            && (forall p :: p in r <==> p in files || p in Paths(uuid, |contents|))
            && (forall p :: p in files ==> r[p] == files[p])
            && (forall i :: 0 <= i < |contents| && Paths(uuid, |contents|)[i] !in files
                            ==> r[Paths(uuid, |contents|)[i]] == contents[i])
  {
    var names := Paths(uuid, |contents|);
    PathsDistinct(uuid, |contents|);
    SaveNamedEffect(files, names, contents, |contents|);
    assert names[..|contents|] == names;
  }

  // ---------------------------------------------------------------------------
  // Joining
  // ---------------------------------------------------------------------------

  /** The first `n` iterations of the join loop; a missing file throws. */
  function Joined(files: Files, uuid: uint64, n: nat): Result<Bytes> {
    if n == 0 then Ok([])
    else
      var prefix := Joined(files, uuid, n - 1);
      if prefix.Throws? || Path(uuid, n - 1) !in files then Throws
      else Ok(prefix.value + files[Path(uuid, n - 1)])
  }

  lemma {:induction false} JoinedOfSaved(files: Files, uuid: uint64, contents: seq<Bytes>, n: nat)
    requires n <= |contents|
    requires forall i :: 0 <= i < n ==> Path(uuid, i) in files && files[Path(uuid, i)] == contents[i]
    ensures Joined(files, uuid, n) == Ok(Flatten(contents[..n]))
  {
    if n > 0 {
      JoinedOfSaved(files, uuid, contents, n - 1);
      FlattenSnoc(contents[..n - 1], contents[n - 1]);
      assert contents[..n] == contents[..n - 1] + [contents[n - 1]];
    }
  }

  lemma {:induction false} JoinedThrows(files: Files, uuid: uint64, n: nat)
    ensures Joined(files, uuid, n).Throws? <==> exists i :: 0 <= i < n && Path(uuid, i) !in files
  {
    if n > 0 {
      JoinedThrows(files, uuid, n - 1);
      var last := Path(uuid, n - 1);
      if last !in files {
        assert Joined(files, uuid, n).Throws?;
      } else if Joined(files, uuid, n - 1).Throws? {
        var i :| 0 <= i < n - 1 && Path(uuid, i) !in files;
        assert 0 <= i < n && Path(uuid, i) !in files;
      } else {
        forall i | 0 <= i < n ensures Path(uuid, i) in files {
          assert i == n - 1 || i < n - 1;
        }
      }
    }
  }

  /** Saving pieces under fresh names and joining them gives their concatenation. */
  lemma JoinAfterSave(files: Files, uuid: uint64, contents: seq<Bytes>)
    requires forall i :: 0 <= i < |contents| ==> Path(uuid, i) !in files
    ensures Joined(SaveAll(files, uuid, contents), uuid, |contents|) == Ok(Flatten(contents))
  {
    SaveAllEffect(files, uuid, contents);
    var names, r := Paths(uuid, |contents|), SaveAll(files, uuid, contents);
    forall i | 0 <= i < |contents| ensures Path(uuid, i) in r && r[Path(uuid, i)] == contents[i] {
      assert names[i] == Path(uuid, i) && names[i] in names;
    }
    JoinedOfSaved(r, uuid, contents, |contents|);
    assert contents[..|contents|] == contents;
  }

  /** The output directory. */
  class Directory {
    var files: Files

    constructor ()
      ensures files == map[]
    {
      files := map[];
    }

    method SaveFile(binary: Bytes, path: string) returns (saved: bool)
      modifies this
      ensures saved <==> path !in old(files)
      ensures files == Save(old(files), path, binary)
      ensures path in files
    {
      if path in files {
        return false;
      }
      files := files[path := binary];
      return true;
    }

    method LoadFile(path: string) returns (loaded: Option<Bytes>)
      ensures loaded == if path in files then Some(files[path]) else None
    {
      if path !in files {
        return None;
      }
      return Some(files[path]);
    }

    /** join.cpp, for any uuid and count. */
    method JoinFiles(uuid: uint64, numHorcruxes: nat) returns (r: Result<Bytes>)
      requires numHorcruxes < TWO_31
      modifies this
      ensures r == Joined(old(files), uuid, numHorcruxes)
      ensures r.Throws? ==> files == old(files)
      ensures r.Ok? ==> files == Save(old(files), "out/reconstructed.png", r.value)
      ensures Joined(files, uuid, numHorcruxes) == r
    {
      var binaries: Bytes := [];
      for index := 0 to numHorcruxes
        invariant files == old(files)
        invariant Joined(files, uuid, index) == Ok(binaries)
      {
        var loaded := LoadFile(Path(uuid, index));
        if loaded.None? {
          JoinedThrows(files, uuid, numHorcruxes);
          return Throws;
        }
        binaries := binaries + loaded.value;
      }
      var _ := SaveFile(binaries, RECONSTRUCTED);
      r := Ok(binaries);
      JoinedIgnoresReconstructed(old(files), uuid, numHorcruxes, binaries);
    }
  }

  lemma {:induction false} JoinedIgnoresReconstructed(files: Files, uuid: uint64, n: nat, binary: Bytes)
    ensures Joined(Save(files, RECONSTRUCTED, binary), uuid, n) == Joined(files, uuid, n)
  {
    if n > 0 {
      JoinedIgnoresReconstructed(files, uuid, n - 1, binary);
      ReconstructedIsNoPiece(uuid, n - 1);
    }
  }
}
