/** The command-line demo of demo/gcc/main.cpp: the start iteration read off
    a positions file name and the step-and-save loop of `main`.  Reading the
    files and writing the snapshots are not part of this model. */
module Demo {
  import opened Wrappers
  import opened Numerals
  import opened NamePatterns
  import opened Schedule

  /** `name` is `pre`, the digits `d` and `.bin`, with `d` the longest digit
      run before `.bin` and `pre` matched by `.*?`. */
  predicate NumberedName(name: string, pre: string, d: string) {
    NoLineTerminator(pre) && (pre == [] || !IsDigit(pre[|pre| - 1])) &&
    d != [] && AllDigits(d) && name == pre + d + ".bin"
  }

  /** `getIterationNumberFromPositionFileName`: a whole-string match of
      `.*?(\d+)\.bin$`, whose lazy prefix leaves the longest digit run to the
      group; `stoi` of the group plus one, and 0 when nothing matches or
      `stoi` throws.  `stoi` of 2147483647 plus one overflows `int`, taken
      as wrap-around. */
  function IterationNumberFromName(name: string): int {
    match DigitsBeforeBin(name)
    case None => 0
    case Some((pre, d)) =>
      if !NoLineTerminator(pre) then 0
      else match Stoi(d)
        case None => 0
        case Some(n) => ToInt32(n + 1)
  }

  /** A name of the matched form gives its number plus one, or 0 when the
      number does not fit into an `int`. */
  lemma NumberFromNumberedName(pre: string, d: string)
    requires NumberedName(pre + d + ".bin", pre, d)
    ensures IterationNumberFromName(pre + d + ".bin") ==
      if DigitsValue(d) < IntMax then DigitsValue(d) + 1
      else if DigitsValue(d) == IntMax then IntMin
      else 0
  {
    DigitsBeforeBinOf(pre, d);
    StoiDigits(d);
    NumberFromSplit(pre + d + ".bin", pre, d);
  }

  lemma NumberFromSplit(name: string, pre: string, d: string)
    requires DigitsBeforeBin(name) == Some((pre, d)) && NoLineTerminator(pre)
    ensures IterationNumberFromName(name) == match Stoi(d) case None => 0 case Some(n) => ToInt32(n + 1)
  {
  }

  /** A nonzero number comes from a name of the matched form. */
  lemma NumberNeedsNumberedName(name: string)
    requires IterationNumberFromName(name) != 0
    ensures exists pre, d :: NumberedName(name, pre, d)
  {
    var (pre, d) := DigitsBeforeBin(name).value;
    assert NumberedName(name, pre, d);
  }

  lemma NumberOfSnapshotName()
    ensures IterationNumberFromName("positions_41.bin") == 42
  {
    var pre, d := "positions_", "41";
    assert pre + d + ".bin" == "positions_41.bin";
    assert !IsDigit(pre[9]);
    assert DigitsValue(d) == 41 by {
      assert d[..1] == "4";
      assert "4"[..0] == [];
    }
    NumberFromNumberedName(pre, d);
  }

  lemma NoNumberNoStart()
    ensures IterationNumberFromName("positions.bin") == 0
  {
    assert "positions" + ".bin" == "positions.bin";
    NoDigitBeforeBin("positions");
  }

  /** Where `main` starts counting: 0 without a positions file. */
  function StartFrom(argv: seq<string>): int {
    if |argv| < 3 then 0 else IterationNumberFromName(argv[2])
  }

  /** The last iteration the demo may run. */
  const LastIteration: int := 10000

  /** The demo saves every fifth iteration. */
  const SaveEvery: nat := 5

  /** `main(argc, argv)` with the layout abstracted to the answers of its
      successive `step` calls: the exit code and the iterations passed to
      `save`. */
  method DemoMain(argv: seq<string>, converged: nat -> bool) returns (code: int, saved: seq<int>)
    ensures |argv| < 2 ==> code == -1 && saved == []
    ensures |argv| >= 2 ==> code == 0 && saved == Snapshots(StartFrom(argv), LastIteration + 1, SaveEvery, converged, 0)
  {
    if |argv| < 2 {
      return -1, [];
    }
    var startFrom := 0;
    if |argv| >= 3 {
      startFrom := IterationNumberFromName(argv[2]);
    }
    saved := StepAndSave(startFrom, LastIteration + 1, SaveEvery, converged);
    code := 0;
  }

  /** The demo saves iteration `x` exactly when `x` is a multiple of 5
      between its start and 10000 and no step up to `x` converged. */
  lemma DemoSavesMultiplesOfFive(argv: seq<string>, converged: nat -> bool, x: int)
    requires |argv| >= 2
    ensures x in Snapshots(StartFrom(argv), LastIteration + 1, SaveEvery, converged, 0) <==>
      StartFrom(argv) <= x <= LastIteration && x % 5 == 0 &&
      RunsThrough(converged, 0, x - StartFrom(argv) + 1)
  {
    SavedExactly(StartFrom(argv), LastIteration + 1, SaveEvery, converged, x);
  }
}
