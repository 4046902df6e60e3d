/** The `forest fetch-params` command: parsing a human-readable sector size
    (`ram_to_int`) and choosing which proof parameters to fetch from the
    `--all`, `--keys` and `<size>` options (`FetchCommands::run`). The download
    itself (`get_params_default`) is not part of this model. */
module FetchParams {
  import opened Results
  import Decimal

  /** The sector sizes the parser knows. */
  datatype SectorSize = Size2KiB | Size8MiB | Size512MiB | Size32GiB | Size64GiB {
    /** log2 of the byte count. */
    function Log2Bytes(): nat
    {
      match this
      case Size2KiB => 11
      case Size8MiB => 23
      case Size512MiB => 29
      case Size32GiB => 35
      case Size64GiB => 36
    }

    /** The byte count, as `fvm_shared::sector::SectorSize` defines it. */
    function Bytes(): nat
    {
      match this
      case Size2KiB => 2048
      case Size8MiB => 8388608
      case Size512MiB => 536870912
      case Size32GiB => 34359738368
      case Size64GiB => 68719476736
    }

    /** The decimal spelling the parser accepts for this size. */
    function DecimalName(): string
    {
      match this
      case Size2KiB => "2048"
      case Size8MiB => "8388608"
      case Size512MiB => "536870912"
      case Size32GiB => "34359738368"
      case Size64GiB => "68719476736"
    }

    /** The number in the binary-prefix spelling of the size, e.g. `32` for 32 GiB. */
    function Count(): string
    {
      match this
      case Size2KiB => "2"
      case Size8MiB => "8"
      case Size512MiB => "512"
      case Size32GiB => "32"
      case Size64GiB => "64"
    }

    /** The binary-prefix letter of the size: `K`, `M` or `G`. */
    function Unit(): char
    {
      match this
      case Size2KiB => 'K'
      case Size8MiB => 'M'
      case Size512MiB => 'M'
      case Size32GiB => 'G'
      case Size64GiB => 'G'
    }
  }

  function Pow2(k: nat): nat
  {
    if k == 0 then 1 else 2 * Pow2(k - 1)
  }

  lemma {:induction false} Pow2Add(a: nat, b: nat)
    ensures Pow2(a + b) == Pow2(a) * Pow2(b)
    decreases a
  {
    if a > 0 {
      Pow2Add(a - 1, b);
      var x, y := Pow2(a - 1), Pow2(b);
      assert Pow2(a + b) == 2 * Pow2(a - 1 + b);
      assert 2 * (x * y) == (2 * x) * y;
    }
  }

  /** The byte counts are 2^11, 2^23, 2^29, 2^35 and 2^36. */
  lemma BytesArePowersOfTwo(sz: SectorSize)
    ensures sz.Bytes() == Pow2(sz.Log2Bytes())
  {
    assert Pow2(11) == 2048 && Pow2(12) == 4096 && Pow2(6) == 64;
    Pow2Add(11, 12);
    Pow2Add(23, 6);
    Pow2Add(29, 6);
    Pow2Add(35, 1);
  }

  lemma DecimalName2KiB()
    ensures Decimal.ToString(2048) == "2048"
  {
    Decimal.ToStringSnoc(204, 8);
    Decimal.ToStringSnoc(20, 4);
    Decimal.ToStringSnoc(2, 0);
  }

  lemma DecimalName8MiB()
    ensures Decimal.ToString(8388608) == "8388608"
  {
    Decimal.ToStringSnoc(838860, 8);
    Decimal.ToStringSnoc(83886, 0);
    Decimal.ToStringSnoc(8388, 6);
    Decimal.ToStringSnoc(838, 8);
  }

  lemma DecimalName512MiB()
    ensures Decimal.ToString(536870912) == "536870912"
  {
    Decimal.ToStringSnoc(53687091, 2);
    Decimal.ToStringSnoc(5368709, 1);
    Decimal.ToStringSnoc(536870, 9);
    Decimal.ToStringSnoc(53687, 0);
    Decimal.ToStringSnoc(5368, 7);
    Decimal.ToStringSnoc(536, 8);
  }

  lemma DecimalName32GiB()
    ensures Decimal.ToString(34359738368) == "34359738368"
  {
    Decimal.ToStringSnoc(3435973836, 8);
    Decimal.ToStringSnoc(343597383, 6);
    Decimal.ToStringSnoc(34359738, 3);
    Decimal.ToStringSnoc(3435973, 8);
    Decimal.ToStringSnoc(343597, 3);
    Decimal.ToStringSnoc(34359, 7);
    Decimal.ToStringSnoc(3435, 9);
    Decimal.ToStringSnoc(343, 5);
  }

  lemma DecimalName64GiB()
    ensures Decimal.ToString(68719476736) == "68719476736"
  {
    Decimal.ToStringSnoc(6871947673, 6);
    Decimal.ToStringSnoc(687194767, 3);
    Decimal.ToStringSnoc(68719476, 7);
    Decimal.ToStringSnoc(6871947, 6);
    Decimal.ToStringSnoc(687194, 7);
    Decimal.ToStringSnoc(68719, 4);
    Decimal.ToStringSnoc(6871, 9);
    Decimal.ToStringSnoc(687, 1);
  }

  /** Each decimal spelling is the decimal numeral of the size's byte count. */
  lemma DecimalAliases(sz: SectorSize)
    ensures sz.DecimalName() == Decimal.ToString(sz.Bytes())
  {
    match sz
    case Size2KiB => DecimalName2KiB();
    case Size8MiB => DecimalName8MiB();
    case Size512MiB => DecimalName512MiB();
    case Size32GiB => DecimalName32GiB();
    case Size64GiB => DecimalName64GiB();
  }

  function ToLowerAscii(c: char): char
  {
    if 'A' <= c <= 'Z' then (c as int + 32) as char else c
  }

  /** The spellings accepted for a size once its `B`/`b` suffixes are removed
      (the alternatives of each arm of the match in `ram_to_int`). */
  function Aliases(sz: SectorSize): set<string>
  {
    match sz
    case Size2KiB => {"2048", "2Ki", "2ki"}
    case Size8MiB => {"8388608", "8Mi", "8mi"}
    case Size512MiB => {"536870912", "512Mi", "512mi"}
    case Size32GiB => {"34359738368", "32Gi", "32gi"}
    case Size64GiB => {"68719476736", "64Gi", "64gi"}
  }

  /** The aliases of a size are its decimal byte count, `<count><K|M|G>i`, and
      the same with the prefix letter in lower case: the table has no typo. */
  lemma AliasesSpelled(sz: SectorSize)
    ensures Aliases(sz) == {Decimal.ToString(sz.Bytes()), sz.Count() + [sz.Unit(), 'i'],
                            sz.Count() + [ToLowerAscii(sz.Unit()), 'i']}
  {
    DecimalAliases(sz);
    match sz
    case Size2KiB =>
      assert "2" + ['K', 'i'] == "2Ki" && "2" + ['k', 'i'] == "2ki";
    case Size8MiB =>
      assert "8" + ['M', 'i'] == "8Mi" && "8" + ['m', 'i'] == "8mi";
    case Size512MiB =>
      assert "512" + ['M', 'i'] == "512Mi" && "512" + ['m', 'i'] == "512mi";
    case Size32GiB =>
      assert "32" + ['G', 'i'] == "32Gi" && "32" + ['g', 'i'] == "32gi";
    case Size64GiB =>
      assert "64" + ['G', 'i'] == "64Gi" && "64" + ['g', 'i'] == "64gi";
  }

  /** `str::trim_end_matches(c)`: remove every trailing `c`. */
  function TrimEnd(s: string, c: char): (r: string)
    ensures |r| <= |s| && r == s[..|r|]
    ensures |r| == 0 || r[|r| - 1] != c
    ensures forall k :: |r| <= k < |s| ==> s[k] == c
    decreases |s|
  {
    if |s| > 0 && s[|s| - 1] == c then TrimEnd(s[..|s| - 1], c) else s
  }

  /** The text the parser matches: trailing `B`s removed first, then trailing `b`s. */
  function TrimUnit(size: string): (r: string)
    ensures |r| <= |size| && r == size[..|r|]
    ensures forall k :: |r| <= k < |size| ==> size[k] == 'B' || size[k] == 'b'
    ensures forall i, j :: |r| <= i < j < |size| && size[i] == 'B' ==> size[j] == 'B'
    ensures |r| == 0 || r[|r| - 1] != 'b'
    ensures |r| > 0 && r[|r| - 1] == 'B' ==> |r| < |size| && size[|r|] == 'b'
  {
    TrimEnd(TrimEnd(size, 'B'), 'b')
  }

  function ParseErrorMessage(size: string): string
  {
    "Failed to parse: " + size + ". Must be a valid sector size"
  }

  /** `ram_to_int`: the size named by `size`, or the parse error. */
  function RamToInt(size: string): (r: Result<SectorSize, string>)
    ensures r.Ok? ==> TrimUnit(size) in Aliases(r.value)
    ensures r.Err? ==> (forall sz :: TrimUnit(size) !in Aliases(sz))
                       && r.error == ParseErrorMessage(size)
  {
    var trimmed := TrimUnit(size);
    if trimmed == "2048" || trimmed == "2Ki" || trimmed == "2ki" then Ok(Size2KiB)
    else if trimmed == "8388608" || trimmed == "8Mi" || trimmed == "8mi" then Ok(Size8MiB)
    else if trimmed == "536870912" || trimmed == "512Mi" || trimmed == "512mi" then Ok(Size512MiB)
    else if trimmed == "34359738368" || trimmed == "32Gi" || trimmed == "32gi" then Ok(Size32GiB)
    else if trimmed == "68719476736" || trimmed == "64Gi" || trimmed == "64gi" then Ok(Size64GiB)
    else Err(ParseErrorMessage(size))
  }

  /** No spelling names two sizes, so a successful parse is unambiguous. */
  lemma AliasesDisjoint(a: SectorSize, b: SectorSize)
    requires a != b
    ensures Aliases(a) !! Aliases(b)
  {
  }

  /** Trimming a trailing `c` is the same as trimming the text before it. */
  lemma TrimEndAppend(s: string, c: char)
    ensures TrimEnd(s + [c], c) == TrimEnd(s, c)
  {
    assert (s + [c])[..|s|] == s;
  }

  /** Every character of `run` is `c`. */
  predicate RunOf(run: string, c: char)
  {
    forall k :: 0 <= k < |run| ==> run[k] == c
  }

  lemma {:induction false} TrimAllOf(stem: string, c: char, run: string)
    requires |stem| > 0 && stem[|stem| - 1] != c
    requires RunOf(run, c)
    ensures TrimEnd(stem + run, c) == stem
    decreases |run|
  {
    if |run| > 0 {
      var init := run[..|run| - 1];
      assert stem + run == (stem + init) + [c];
      TrimEndAppend(stem + init, c);
      TrimAllOf(stem, c, init);
    } else {
      assert stem + run == stem;
    }
  }

  /** The text matched for a stem that ends in neither `B` nor `b`, followed
      by a run of `B`s or a run of `b`s: exactly the stem. */
  lemma TrimUnitOfStem(stem: string, run: string)
    requires |stem| > 0 && stem[|stem| - 1] != 'B' && stem[|stem| - 1] != 'b'
    requires RunOf(run, 'B') || RunOf(run, 'b')
    ensures TrimUnit(stem + run) == stem
  {
    if RunOf(run, 'B') {
      TrimAllOf(stem, 'B', run);
      TrimAllOf(stem, 'b', []);
      assert stem + [] == stem;
    } else {
      TrimAllOf(stem, 'B', []);
      assert stem + [] == stem;
      TrimAllOf(stem, 'b', run);
    }
  }

  /** Every alias of a size parses to that size, also when followed by any
      run of `B`s or of `b`s. */
  lemma ParsesEveryAlias(sz: SectorSize, alias: string, run: string)
    requires alias in Aliases(sz)
    requires RunOf(run, 'B') || RunOf(run, 'b')
    ensures RamToInt(alias + run) == Ok(sz)
  {
    TrimUnitOfStem(alias, run);
    var r := RamToInt(alias + run);
    if r.Ok? && r.value != sz {
      AliasesDisjoint(r.value, sz);
    }
  }

  /** An alias parses to its size as written, with a `B`, and with a `b`. */
  lemma ParsesAliasWithUnit(sz: SectorSize, alias: string)
    requires alias in Aliases(sz)
    ensures RamToInt(alias) == Ok(sz)
    ensures RamToInt(alias + "B") == Ok(sz)
    ensures RamToInt(alias + "b") == Ok(sz)
  {
    ParsesEveryAlias(sz, alias, []);
    assert alias + [] == alias;
    ParsesEveryAlias(sz, alias, "B");
    ParsesEveryAlias(sz, alias, "b");
  }

  /** The 2 KiB conversions the command's unit test checks. */
  lemma RamToIntExamples2KiB()
    ensures RamToInt("2048") == Ok(Size2KiB)
    ensures RamToInt("2048B") == Ok(Size2KiB)
    ensures RamToInt("2kib") == Ok(Size2KiB)
  {
    ParsesAliasWithUnit(Size2KiB, "2048");
    assert "2048" + "B" == "2048B";
    ParsesAliasWithUnit(Size2KiB, "2ki");
    assert "2ki" + "b" == "2kib";
  }

  /** The MiB conversions the command's unit test checks. */
  lemma RamToIntExamplesMiB()
    ensures RamToInt("8Mib") == Ok(Size8MiB)
    ensures RamToInt("512MiB") == Ok(Size512MiB)
  {
    ParsesAliasWithUnit(Size8MiB, "8Mi");
    assert "8Mi" + "b" == "8Mib";
    ParsesAliasWithUnit(Size512MiB, "512Mi");
    assert "512Mi" + "B" == "512MiB";
  }

  /** The GiB conversions the command's unit test checks. */
  lemma RamToIntExamplesGiB()
    ensures RamToInt("32Gi") == Ok(Size32GiB)
    ensures RamToInt("32GiB") == Ok(Size32GiB)
    ensures RamToInt("64Gib") == Ok(Size64GiB)
  {
    ParsesAliasWithUnit(Size32GiB, "32Gi");
    assert "32Gi" + "B" == "32GiB";
    ParsesAliasWithUnit(Size64GiB, "64Gi");
    assert "64Gi" + "b" == "64Gib";
  }

  /** `B`s are trimmed before `b`s: `2KibB` is accepted but `2KiBb` is rejected. */
  lemma TrimOrderMatters()
    ensures RamToInt("2KibB") == Ok(Size2KiB)
    ensures RamToInt("2KiBb").Err?
  {
    assert "2KibB" == ("2Ki" + "b") + ['B'];
    TrimEndAppend("2Kib", 'B');
    TrimUnitOfStem("2Ki", "b");
    assert "2KiBb" == "2KiB" + ['b'];
    TrimEndAppend("2KiB", 'b');
    assert TrimUnit("2KiBb") == "2KiB";
  }

  // ---------------------------------------------------------------------------
  // Option selection

  /** The command-line options of `forest fetch-params`. */
  datatype FetchCommands = FetchCommands(all: bool, keys: bool, paramsSize: Option<string>)

  /** What to download. */
  datatype SectorSizeOpt = All | Keys | Size(size: SectorSize)

  /** A size that does not parse is returned as an error; choosing nothing
      makes the command exit with status 1 and this message. */
  datatype FetchError = Parse(message: string) | Die(message: string, exitCode: int)

  const NoOptionMessage: string := "Sector size option must be chosen. Choose between --all, --keys, or <size>"

  /** The selection at the head of `FetchCommands::run`. */
  function SelectSizes(cmd: FetchCommands): (r: Result<SectorSizeOpt, FetchError>)
    ensures cmd.all ==> r == Ok(All)
    ensures r.Ok? && r.value.Keys? <==> !cmd.all && cmd.paramsSize.None? && cmd.keys
    ensures r.Ok? && r.value.Size? <==>
              !cmd.all && cmd.paramsSize.Some? && RamToInt(cmd.paramsSize.value).Ok?
    ensures r.Ok? && r.value.Size? ==> r.value.size == RamToInt(cmd.paramsSize.value).value
    ensures r.Err? && r.error.Parse? <==>
              !cmd.all && cmd.paramsSize.Some? && RamToInt(cmd.paramsSize.value).Err?
    ensures r.Err? && r.error.Die? <==> !cmd.all && !cmd.keys && cmd.paramsSize.None?
    ensures r.Err? && r.error.Die? ==> r.error == Die(NoOptionMessage, 1)
  {
    if cmd.all then Ok(All)
    else if cmd.paramsSize.Some? then
      match RamToInt(cmd.paramsSize.value)
      case Ok(sz) => Ok(Size(sz))
      case Err(msg) => Err(Parse(msg))
    else if cmd.keys then Ok(Keys)
    else Err(Die(NoOptionMessage, 1))
  }
}
