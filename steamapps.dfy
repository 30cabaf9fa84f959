/**
 * The Steam game index built when the OBS follower starts: every `.desktop` file in the
 * applications directory is read up to its first `Exec=` line; a Steam launcher line gives the
 * game id (the text after its last '/'), paired with the last `Name=` value read before it.
 */
module SteamApps {
  import opened Wrappers
  import opened PyStr

  /** A directory entry: its file name and its lines as `readlines()` returns them (newlines kept). */
  datatype DesktopFile = DesktopFile(name: string, lines: seq<string>)

  /** What one file contributes: nothing, a game, or the IndexError of a Steam line without '/'. */
  datatype Scan = NoEntry | Game(gameId: string, name: Option<string>) | NoSlash

  const NamePrefix := "Name="
  const ExecPrefix := "Exec="
  const DesktopSuffix := ".desktop"

  /** The value of a `Name=` line: with trailing whitespace stripped, everything after the first '='. */
  function NameValue(line: string): string
    requires StartsWith(line, NamePrefix)
  {
    var r := RStrip(line);
    assert !IsSpace(line[4]);
    r[|NamePrefix|..]
  }

  /** The value of `name` after reading `line`. */
  function NameAfter(line: string, name: Option<string>): Option<string> {
    if StartsWith(line, NamePrefix) then Some(NameValue(line)) else name
  }

  /** What reading an `Exec=` line gives. */
  function ExecOutcome(line: string, name: Option<string>): Scan {
    if Contains(line, "steam") then
      match AfterLastSlash(RStrip(line))
      case None => NoSlash
      case Some(id) => Game(id, name)
    else NoEntry
  }

  /** The inner loop of the scan, from a given value of `name`, as the lines are read. */
  function ScanLines(lines: seq<string>, name: Option<string>): Scan
    decreases |lines|
  {
    if lines == [] then NoEntry
    else
      var name' := NameAfter(lines[0], name);
      if StartsWith(lines[0], ExecPrefix) then ExecOutcome(lines[0], name')
      else ScanLines(lines[1..], name')
  }

  /** The inner loop over one file's lines, with its `break` at the first `Exec=` line. */
  method ScanDesktopLines(lines: seq<string>) returns (s: Scan)
    ensures s == ScanLines(lines, None)
  {
    var name: Option<string> := None;
    var i := 0;
    s := NoEntry;
    while i < |lines|
      invariant 0 <= i <= |lines|
      invariant ScanLines(lines, None) == ScanLines(lines[i..], name)
    {
      var line := lines[i];
      assert lines[i..][1..] == lines[i + 1..];
      if StartsWith(line, NamePrefix) {
        name := Some(NameValue(line));
      }
      if StartsWith(line, ExecPrefix) {
        if Contains(line, "steam") {
          var gameId := AfterLastSlash(RStrip(line));
          if gameId.None? {
            return NoSlash;
          }
          s := Game(gameId.value, name);
        }
        return;
      }
      i := i + 1;
    }
  }

  /** The first `Exec=` line. */
  function FirstExec(lines: seq<string>): (r: Option<nat>)
    ensures r.None? <==> forall i :: 0 <= i < |lines| ==> !StartsWith(lines[i], ExecPrefix)
    ensures r.Some? ==>
      r.value < |lines| && StartsWith(lines[r.value], ExecPrefix)
        && forall i :: 0 <= i < r.value ==> !StartsWith(lines[i], ExecPrefix)
    decreases |lines|
  {
    if lines == [] then None
    else if StartsWith(lines[0], ExecPrefix) then Some(0)
    else
      var tail := lines[1..];
      assert forall i :: 0 <= i < |tail| ==> tail[i] == lines[i + 1];
      match FirstExec(tail)
      case None => None
      case Some(k) => Some(k + 1)
  }

  /** The position of the last `Name=` line of `lines`. */
  function LastNameLine(lines: seq<string>): (r: Option<nat>)
    ensures r.None? <==> forall i :: 0 <= i < |lines| ==> !StartsWith(lines[i], NamePrefix)
    ensures r.Some? ==>
      r.value < |lines| && StartsWith(lines[r.value], NamePrefix)
        && forall j :: r.value < j < |lines| ==> !StartsWith(lines[j], NamePrefix)
    decreases |lines|
  {
    if lines == [] then None
    else if StartsWith(lines[|lines| - 1], NamePrefix) then Some(|lines| - 1)
    else
      var init := lines[..|lines| - 1];
      assert forall i :: 0 <= i < |init| ==> init[i] == lines[i];
      LastNameLine(init)
  }

  /** The value of the last `Name=` line of `lines`, or `dflt` when there is none. */
  function LastName(lines: seq<string>, dflt: Option<string>): (r: Option<string>)
    ensures LastNameLine(lines).None? ==> r == dflt
    ensures LastNameLine(lines).Some? ==> r == Some(NameValue(lines[LastNameLine(lines).value]))
    decreases |lines|
  {
    if lines == [] then dflt
    else if StartsWith(lines[|lines| - 1], NamePrefix) then Some(NameValue(lines[|lines| - 1]))
    else
      var init := lines[..|lines| - 1];
      assert forall i :: 0 <= i < |init| ==> init[i] == lines[i];
      assert LastNameLine(lines) == LastNameLine(init);
      LastName(init, dflt)
  }

  lemma {:induction false} LastNameCons(line: string, rest: seq<string>, dflt: Option<string>)
    ensures LastName([line] + rest, dflt) == LastName(rest, NameAfter(line, dflt))
    decreases |rest|
  {
    var all := [line] + rest;
    if rest == [] {
      assert all == [line];
      assert all[..0] == [];
    } else {
      var init := rest[..|rest| - 1];
      var last := rest[|rest| - 1];
      assert all[|all| - 1] == last;
      assert all[..|all| - 1] == [line] + init;
      if !StartsWith(last, NamePrefix) {
        LastNameCons(line, init, dflt);
      }
    }
  }

  /** The scan's outcome in terms of the file: decided by the first `Exec=` line alone. */
  function Expected(lines: seq<string>, dflt: Option<string>): Scan {
    match FirstExec(lines)
    case None => NoEntry
    case Some(k) => ExecOutcome(lines[k], LastName(lines[..k], dflt))
  }

  /**
   * The scan stops at the first `Exec=` line whether or not it names Steam; a Steam line gives the
   * text after its last '/' (after stripping trailing whitespace) as the key and the last `Name=`
   * value seen before it (or `None`); a file with no `Exec=` line contributes nothing.
   */
  lemma {:induction false} ScanExact(lines: seq<string>, dflt: Option<string>)
    ensures ScanLines(lines, dflt) == Expected(lines, dflt)
    decreases |lines|
  {
    if lines != [] {
      var line := lines[0];
      var tail := lines[1..];
      if StartsWith(line, ExecPrefix) {
        assert !StartsWith(line, NamePrefix) by { assert line[0] == 'E'; }
        assert lines[..0] == [];
      } else {
        var name' := NameAfter(line, dflt);
        assert ScanLines(lines, dflt) == ScanLines(tail, name');
        ScanExact(tail, name');
        match FirstExec(tail)
        case None =>
          assert FirstExec(lines) == None;
        case Some(k) =>
          assert FirstExec(lines) == Some(k + 1);
          assert lines[k + 1] == tail[k];
          assert lines[..k + 1] == [line] + tail[..k];
          LastNameCons(line, tail[..k], dflt);
          assert Expected(lines, dflt) == ExecOutcome(tail[k], LastName(tail[..k], name'));
      }
    }
  }

  /** Lines after the first `Exec=` line are never read. */
  lemma LinesAfterExecIgnored(lines: seq<string>, more: seq<string>)
    requires FirstExec(lines).Some?
    ensures ScanLines(lines + more, None) == ScanLines(lines, None)
  {
    var k := FirstExec(lines).value;
    ScanExact(lines, None);
    ScanExact(lines + more, None);
    FirstExecAppend(lines, more);
  }

  lemma FirstExecAppend(lines: seq<string>, more: seq<string>)
    requires FirstExec(lines).Some?
    ensures var k := FirstExec(lines).value;
      FirstExec(lines + more) == Some(k) && (lines + more)[k] == lines[k] && (lines + more)[..k] == lines[..k]
  {
    var k := FirstExec(lines).value;
    var both := lines + more;
    assert forall i :: 0 <= i <= k ==> both[i] == lines[i];
    assert both[..k] == lines[..k];
  }

  /** What a directory entry contributes: nothing unless it is a `.desktop` file, else its scan. */
  function Contribution(f: DesktopFile): Scan {
    if NameSuffix(f.name) != DesktopSuffix then NoEntry else ScanLines(f.lines, None)
  }

  /** The contributions of the files of a listing, in order. */
  function Contributions(files: seq<DesktopFile>): (cs: seq<Scan>)
    ensures |cs| == |files|
    decreases |files|
  {
    if files == [] then [] else Contributions(files[..|files| - 1]) + [Contribution(files[|files| - 1])]
  }

  /**
   * The table after one more contribution: a raising scan is an error naming the file.
   * The lemmas that characterise the whole table work on the sequence of contributions
   * through this function.
   */
  function Apply(acc: Result<map<string, Option<string>>, string>, s: Scan, fileName: string)
    : Result<map<string, Option<string>>, string>
  {
    match acc
    case Err(e) => Err(e)
    case Ok(m) =>
      match s
      case NoEntry => Ok(m)
      case NoSlash => Err(fileName)
      case Game(id, name) => Ok(m[id := name])
  }

  /**
   * One more directory entry read into the table, with the tests in the order of the loop body:
   * the file-name test, then the scan of its lines. It is the same step as `Apply` on the
   * file's `Contribution` (`StepApplies`); it is written out rather than defined by `Apply` so
   * that the proofs about the loop unfold one function, not three.
   */
  function Step(acc: Result<map<string, Option<string>>, string>, f: DesktopFile)
    : Result<map<string, Option<string>>, string>
  {
    match acc
    case Err(e) => Err(e)
    case Ok(m) =>
      if NameSuffix(f.name) != DesktopSuffix then Ok(m)
      else
        match ScanLines(f.lines, None)
        case NoEntry => Ok(m)
        case NoSlash => Err(f.name)
        case Game(id, name) => Ok(m[id := name])
  }

  /** `Step` is `Apply` on the file's contribution. */
  lemma StepApplies(acc: Result<map<string, Option<string>>, string>, f: DesktopFile)
    ensures Step(acc, f) == Apply(acc, Contribution(f), f.name)
  {
  }

  /** `known_steam_apps` after the directory loop, or the file on which the scan raises. */
  function SteamTable(files: seq<DesktopFile>): Result<map<string, Option<string>>, string>
    decreases |files|
  {
    if files == [] then Ok(map[]) else Step(SteamTable(files[..|files| - 1]), files[|files| - 1])
  }

  lemma SteamTableSnoc(files: seq<DesktopFile>, f: DesktopFile)
    ensures SteamTable(files + [f]) == Step(SteamTable(files), f)
  {
    assert (files + [f])[..|files|] == files;
  }

  lemma SteamTablePrefix(files: seq<DesktopFile>, i: nat)
    requires i < |files|
    ensures SteamTable(files[..i + 1]) == Step(SteamTable(files[..i]), files[i])
  {
    assert files[..i + 1] == files[..i] + [files[i]];
    SteamTableSnoc(files[..i], files[i]);
  }

  /** The directory loop of `i3OBSManager.__init__`. */
  method IndexSteamApps(files: seq<DesktopFile>) returns (r: Result<map<string, Option<string>>, string>)
    ensures r == SteamTable(files)
  {
    var apps: map<string, Option<string>> := map[];
    var i := 0;
    while i < |files|
      invariant 0 <= i <= |files|
      invariant SteamTable(files[..i]) == Ok(apps)
    {
      var f := files[i];
      SteamTablePrefix(files, i);
      if NameSuffix(f.name) == DesktopSuffix {
        var s := ScanDesktopLines(f.lines);
        match s
        case NoSlash =>
          PrefixErrorPersists(files, i + 1);
          assert files[..|files|] == files;
          return Err(f.name);
        case Game(id, name) =>
          apps := apps[id := name];
        case NoEntry =>
      }
      i := i + 1;
    }
    assert files[..i] == files;
    return Ok(apps);
  }

  /** Once the scan has raised, later files cannot change that. */
  lemma {:induction false} PrefixErrorPersists(files: seq<DesktopFile>, i: nat)
    requires i <= |files| && SteamTable(files[..i]).Err?
    ensures SteamTable(files) == SteamTable(files[..i])
    decreases |files| - i
  {
    if i < |files| {
      assert files[..i + 1][..i] == files[..i];
      PrefixErrorPersists(files, i + 1);
    } else {
      assert files[..i] == files;
    }
  }

  /** Only `.desktop` files are read: a file with any other suffix, anywhere in the listing, changes nothing. */
  lemma {:induction false} OtherFilesIgnored(before: seq<DesktopFile>, f: DesktopFile, after: seq<DesktopFile>)
    requires NameSuffix(f.name) != DesktopSuffix
    ensures SteamTable(before + [f] + after) == SteamTable(before + after)
    decreases |after|
  {
    if after == [] {
      SteamTableSnoc(before, f);
      assert before + [f] + after == before + [f];
      assert before + after == before;
    } else {
      var init := after[..|after| - 1];
      var last := after[|after| - 1];
      var withF := before + [f] + init;
      var withoutF := before + init;
      OtherFilesIgnored(before, f, init);
      SteamTableSnoc(withF, last);
      SteamTableSnoc(withoutF, last);
      assert SteamTable(withF + [last]) == SteamTable(withoutF + [last]);
      SplitLast(before, f, after);
    }
  }

  lemma SplitLast(before: seq<DesktopFile>, f: DesktopFile, after: seq<DesktopFile>)
    requires after != []
    ensures var init := after[..|after| - 1]; var last := after[|after| - 1];
      before + [f] + after == (before + [f] + init) + [last]
        && before + after == (before + init) + [last]
  {
    assert after == after[..|after| - 1] + [after[|after| - 1]];
  }

  /** Position `i` of the contributions is the contribution of file `i`. */
  lemma {:induction false} ContributionsAt(files: seq<DesktopFile>, i: nat)
    requires i < |files|
    ensures Contributions(files)[i] == Contribution(files[i])
    decreases |files|
  {
    if i < |files| - 1 {
      var init := files[..|files| - 1];
      ContributionsAt(init, i);
    }
  }

  /** The position of the first scan that raises. */
  function FirstRaising(cs: seq<Scan>): (r: Option<nat>)
    ensures r.None? <==> forall i :: 0 <= i < |cs| ==> !cs[i].NoSlash?
    ensures r.Some? ==> r.value < |cs| && cs[r.value].NoSlash? && forall i :: 0 <= i < r.value ==> !cs[i].NoSlash?
    decreases |cs|
  {
    if cs == [] then None
    else
      var init := cs[..|cs| - 1];
      match FirstRaising(init)
      case Some(k) => Some(k)
      case None => if cs[|cs| - 1].NoSlash? then Some(|cs| - 1) else None
  }

  /** The position of the last scan that lists the game `id`. */
  function LastGame(cs: seq<Scan>, id: string): (r: Option<nat>)
    ensures r.None? <==> forall i :: 0 <= i < |cs| ==> !(cs[i].Game? && cs[i].gameId == id)
    ensures r.Some? ==>
      r.value < |cs| && cs[r.value].Game? && cs[r.value].gameId == id
        && forall i :: r.value < i < |cs| ==> !(cs[i].Game? && cs[i].gameId == id)
    decreases |cs|
  {
    if cs == [] then None
    else if cs[|cs| - 1].Game? && cs[|cs| - 1].gameId == id then Some(|cs| - 1)
    else
      var init := cs[..|cs| - 1];
      LastGame(init, id)
  }

  /** The table of a listing: the table of all but the last file, plus the last file's contribution. */
  lemma SteamTableLast(files: seq<DesktopFile>)
    requires files != []
    ensures var n := |files| - 1;
      SteamTable(files) == Apply(SteamTable(files[..n]), Contributions(files)[n], files[n].name)
        && Contributions(files[..n]) == Contributions(files)[..n]
  {
    var n := |files| - 1;
    StepApplies(SteamTable(files[..n]), files[n]);
    assert Contributions(files)[n] == Contribution(files[n]);
  }

  /** The index fails iff some `.desktop` file raises, and it names the first such file. */
  lemma {:induction false} SteamTableError(files: seq<DesktopFile>)
    ensures SteamTable(files).Err? <==> FirstRaising(Contributions(files)).Some?
    ensures SteamTable(files).Err? ==> SteamTable(files).error == files[FirstRaising(Contributions(files)).value].name
    decreases |files|
  {
    if files != [] {
      SteamTableError(files[..|files| - 1]);
      SteamTableLast(files);
    }
  }

  /**
   * When no file raises, a game id is a key of `known_steam_apps` iff some `.desktop` file lists it,
   * and its name is the one the last such file gives.
   */
  lemma {:induction false} SteamTableExact(files: seq<DesktopFile>, id: string)
    requires SteamTable(files).Ok?
    ensures id in SteamTable(files).value <==> LastGame(Contributions(files), id).Some?
    ensures id in SteamTable(files).value ==>
      SteamTable(files).value[id] == Contributions(files)[LastGame(Contributions(files), id).value].name
    decreases |files|
  {
    if files != [] {
      var n := |files| - 1;
      var cs := Contributions(files);
      SteamTableLast(files);
      SteamTableExact(files[..n], id);
      ApplyGames(SteamTable(files[..n]).value, cs, files[n].name, id);
    }
  }

  /** The step of `SteamTableExact` on scans alone: one more contribution, no file raising. */
  lemma ApplyGames(m0: map<string, Option<string>>, cs: seq<Scan>, fileName: string, id: string)
    requires cs != [] && Apply(Ok(m0), cs[|cs| - 1], fileName).Ok?
    requires id in m0 <==> LastGame(cs[..|cs| - 1], id).Some?
    requires id in m0 ==> m0[id] == cs[LastGame(cs[..|cs| - 1], id).value].name
    ensures var m := Apply(Ok(m0), cs[|cs| - 1], fileName).value;
      (id in m <==> LastGame(cs, id).Some?)
        && (id in m ==> m[id] == cs[LastGame(cs, id).value].name)
  {
  }

  /** A game listed by a later file replaces the entry of an earlier file with the same game id. */
  lemma LaterFileWins(files: seq<DesktopFile>, f: DesktopFile, m: map<string, Option<string>>)
    requires SteamTable(files) == Ok(m)
    requires NameSuffix(f.name) == DesktopSuffix && ScanLines(f.lines, None).Game?
    ensures var g := ScanLines(f.lines, None);
      SteamTable(files + [f]) == Ok(m[g.gameId := g.name])
  {
    SteamTableSnoc(files, f);
  }
}
