/** The nginx executor: its list-file printer and parser, and the ban map it keeps in step
    with the file. */
module Nginx {
  import opened Basics
  import opened Text
  import opened Environment

  datatype FileFormat = Geo | Deny

  /** The header without its line end. */
  const FILE_HEADER: string := "# managed by arxsentinel" + " \U{2014} " + "do not edit manually"

  /** A line the parser takes for a comment. */
  predicate Comment(line: string) {
    && line != [] && line[0] == '#' && !IsSpace(line[|line| - 1])
    && forall i :: 0 <= i < |line| ==> line[i] != '\n'
  }

  lemma HeaderIsComment()
    ensures Comment(FILE_HEADER)
  {
    var a, b, c := "# managed by arxsentinel", " \U{2014} ", "do not edit manually";
    assert a[0] == '#' && c[|c| - 1] == 'y';
    assert forall i :: 0 <= i < |a| ==> a[i] != '\n';
    assert forall i :: 0 <= i < |c| ==> c[i] != '\n';
    assert FILE_HEADER == a + b + c;
  }

  /** What can stand in one line of the file: in a deny line anything without spaces, in a geo
      line anything without line ends that has no space at its ends and no '#' in front. */
  predicate Token(ip: string, format: FileFormat) {
    && ip != [] && '\n' !in ip
    && match format
       case Deny => forall i :: 0 <= i < |ip| ==> !IsSpace(ip[i])
       case Geo => ip[0] != '#' && !IsSpace(ip[0]) && !IsSpace(ip[|ip| - 1])
  }

  function Line(ip: string, format: FileFormat): string {
    match format
    case Deny => "deny " + ip + ";"
    case Geo => ip + " 1;"
  }

  function Lines(ips: seq<string>, format: FileFormat): (lines: seq<string>)
    ensures |lines| == |ips| && forall i :: 0 <= i < |ips| ==> lines[i] == Line(ips[i], format)
  {
    seq(|ips|, i requires 0 <= i < |ips| => Line(ips[i], format))
  }

  /** The file text for the addresses in the given order. */
  function Printed(header: string, ips: seq<string>, format: FileFormat): string {
    Join([header] + Lines(ips, format) + [""], '\n')
  }

  /** The address of one trimmed line, or "" when the line does not have the format's syntax. */
  function ParseBannedLine(line: string, format: FileFormat): string {
    match format
    case Deny =>
      var fields := Fields(TrimSuffix(line, ";"));
      if HasSuffix(line, ";") && |fields| == 2 && fields[0] == "deny" then fields[1] else ""
    case Geo =>
      if HasSuffix(line, " 1;") then TrimSpace(TrimSuffix(line, " 1;")) else ""
  }

  /** The address a scanned line contributes, or "" when it is blank, a comment or malformed. */
  function AddressOf(scanned: string, format: FileFormat): string {
    var line := TrimSpace(scanned);
    if line == [] || HasPrefix(line, "#") then "" else ParseBannedLine(line, format)
  }

  function Reader(format: FileFormat): string -> string {
    (scanned: string) => AddressOf(scanned, format)
  }

  function Parsed(text: string, format: FileFormat): seq<string> {
    Collected(ScanLines(text), Reader(format))
  }

  lemma GeoLineReadsBack(ip: string)
    requires Token(ip, Geo)
    ensures AddressOf(Line(ip, Geo), Geo) == ip
  {
    var line := ip + " 1;";
    assert line[0] == ip[0] && line[|line| - 1] == ';';
    TrimSpaceNothing(line);
    assert line[..1] == [ip[0]];
    assert line[|line| - 3..] == " 1;" && line[..|line| - 3] == ip;
    TrimSpaceNothing(ip);
  }

  lemma DenyLineReadsBack(ip: string)
    requires Token(ip, Deny)
    ensures AddressOf(Line(ip, Deny), Deny) == ip
  {
    var line := "deny " + ip + ";";
    assert line[0] == 'd' && line[|line| - 1] == ';';
    TrimSpaceNothing(line);
    assert line[..1] == "d";
    assert line[|line| - 1..] == ";" && line[..|line| - 1] == "deny" + " " + ip;
    FieldsOfTwo("deny", ip);
  }

  lemma LineHasNoBreak(ip: string, format: FileFormat)
    requires '\n' !in ip
    ensures '\n' !in Line(ip, format)
  {
    var line := Line(ip, format);
    assert forall i :: 0 <= i < |line| ==> line[i] != '\n';
  }

  lemma LineIsOneLine(ip: string, format: FileFormat)
    requires Token(ip, format)
    ensures '\n' !in Line(ip, format) && DropCR(Line(ip, format)) == Line(ip, format)
  {
    var line := Line(ip, format);
    assert line[|line| - 1] == ';';
    LineHasNoBreak(ip, format);
  }

  lemma CommentReadsAsNothing(line: string, format: FileFormat)
    requires Comment(line)
    ensures '\n' !in line && DropCR(line) == line && AddressOf(line, format) == ""
  {
    TrimSpaceNothing(line);
    assert line[..1] == "#";
  }

  /** In any order and in both formats, the parser reads back exactly the printed addresses. */
  lemma ParsedPrinted(header: string, ips: seq<string>, format: FileFormat)
    requires Comment(header) && forall i :: 0 <= i < |ips| ==> Token(ips[i], format)
    ensures Parsed(Printed(header, ips, format), format) == ips
  {
    var lines := [header] + Lines(ips, format);
    var parts := lines + [""];
    CommentReadsAsNothing(header, format);
    forall i | 0 <= i < |parts|
      ensures '\n' !in parts[i] && DropCR(parts[i]) == parts[i]
    {
      if 1 <= i < |lines| {
        LineIsOneLine(ips[i - 1], format);
        assert parts[i] == Line(ips[i - 1], format);
      }
    }
    SplitJoin(parts, '\n');
    assert ScanLines(Join(parts, '\n')) == lines;
    var read := Reader(format);
    assert read(header) == "";
    forall i | 0 <= i < |ips| ensures read(lines[1..][i]) == ips[i] {
      LineReadsBack(ips[i], format);
      assert lines[1..][i] == Line(ips[i], format);
    }
    AddressesOfLines(header, lines[1..], ips, read);
    assert [header] + lines[1..] == lines;
  }

  lemma LineReadsBack(ip: string, format: FileFormat)
    requires Token(ip, format)
    ensures AddressOf(Line(ip, format), format) == ip
  {
    match format
    case Geo => GeoLineReadsBack(ip);
    case Deny => DenyLineReadsBack(ip);
  }

  /** The condition is exact: nothing else survives being written as one line. */
  lemma ReadsBackIff(ip: string, format: FileFormat)
    ensures Token(ip, format) <==> ip != [] && '\n' !in ip && AddressOf(Line(ip, format), format) == ip
  {
    if Token(ip, format) {
      LineReadsBack(ip, format);
    }
    if ip != [] && '\n' !in ip && AddressOf(Line(ip, format), format) == ip {
      LineHasNoBreak(ip, format);
      AddressIsToken(Line(ip, format), format);
    }
  }

  /** Whatever the parser takes from a line can be written back. */
  lemma AddressIsToken(scanned: string, format: FileFormat)
    requires '\n' !in scanned && AddressOf(scanned, format) != ""
    ensures Token(AddressOf(scanned, format), format)
  {
    var line := TrimSpace(scanned);
    TrimSpaceEnds(scanned);
    match format
    case Deny =>
      FieldsHaveNoSpaces(TrimSuffix(line, ";"));
    case Geo =>
      var front := TrimSuffix(line, " 1;");
      TrimSpaceEnds(front);
      assert front[0] == line[0];
      assert line[..1] != "#" ==> line[0] != '#';
      assert Leading(front, IsSpace) == 0;
  }

  /** Every address that the parser finds in any text at all can be written back. */
  lemma ParsedAreTokens(text: string, format: FileFormat)
    ensures forall ip :: ip in Parsed(text, format) ==> Token(ip, format)
  {
    var lines := ScanLines(text);
    forall i | 0 <= i < |lines| ensures '\n' !in lines[i] {
    }
    AddressesAreTokens(lines, format);
  }

  lemma {:induction false} AddressesAreTokens(lines: seq<string>, format: FileFormat)
    requires forall i :: 0 <= i < |lines| ==> '\n' !in lines[i]
    ensures forall ip :: ip in Collected(lines, Reader(format)) ==> Token(ip, format)
  {
    if lines == [] {
    } else {
      var n := |lines| - 1;
      AddressesAreTokens(lines[..n], format);
      if AddressOf(lines[n], format) != "" {
        AddressIsToken(lines[n], format);
      }
    }
  }

  lemma {:induction false} AddressesOfLines(header: string, lines: seq<string>, ips: seq<string>, read: string -> string)
    requires read(header) == "" && |lines| == |ips|
    requires forall i :: 0 <= i < |ips| ==> read(lines[i]) == ips[i] && ips[i] != []
    ensures Collected([header] + lines, read) == ips
  {
    var all := [header] + lines;
    if lines == [] {
      assert all == [header] && all[..0] == [];
    } else {
      var n := |lines| - 1;
      AddressesOfLines(header, lines[..n], ips[..n], read);
      assert all[..|all| - 1] == [header] + lines[..n];
    }
  }

  /** The ban map a restart rebuilds from the two files: an address without a saved timestamp
      counts as banned now. */
  function Recovered(ips: seq<string>, saved: map<string, Time>, now: Time): map<string, Time> {
    map ip | ip in ips :: if ip in saved then saved[ip] else now
  }

  lemma RecoveredGrows(lines: seq<string>, i: nat, read: string -> string, saved: map<string, Time>, now: Time)
    requires i < |lines|
    ensures
      var ip := read(lines[i]);
      var before := Recovered(Collected(lines[..i], read), saved, now);
      Recovered(Collected(lines[..i + 1], read), saved, now) ==
      if ip == [] then before else before[ip := if ip in saved then saved[ip] else now]
  {
    assert lines[..i + 1][..i] == lines[..i];
  }

  /** A restart after a complete write recovers the same addresses and timestamps. */
  lemma RestartRecovers(header: string, ips: seq<string>, banned: map<string, Time>, format: FileFormat, now: Time)
    requires Comment(header) && banned.Keys == set ip | ip in ips
    requires forall ip :: ip in banned ==> Token(ip, format)
    ensures Recovered(Parsed(Printed(header, ips, format), format), banned, now) == banned
  {
    forall i | 0 <= i < |ips| ensures Token(ips[i], format) {
      assert ips[i] in banned.Keys;
    }
    ParsedPrinted(header, ips, format);
    var r := Recovered(ips, banned, now);
    assert forall ip :: ip in ips <==> ip in banned.Keys;
    assert r.Keys == banned.Keys;
  }

  /** A restart from this text and these timestamps recovers the ban map, whenever it happens. */
  ghost predicate Restores(text: string, saved: map<string, Time>, banned: map<string, Time>, format: FileFormat) {
    forall now :: Recovered(Parsed(text, format), saved, now) == banned
  }

  /** The two files; either write may fail and then leaves the file as it was. */
  class Disk {
    var listFile: Option<string>
    var stateFile: Option<map<string, Time>>
    /** How many writes of each file failed. */
    ghost var failedLists: nat
    ghost var failedStates: nat

    method WriteList(text: string) returns (ok: bool)
      modifies this`listFile, this`failedLists
      ensures listFile == if ok then Some(text) else old(listFile)
      ensures failedLists == old(failedLists) + if ok then 0 else 1
    {
      ok := *;
      if ok {
        listFile := Some(text);
      } else {
        failedLists := failedLists + 1;
      }
    }

    method WriteState(banned: map<string, Time>) returns (ok: bool)
      modifies this`stateFile, this`failedStates
      ensures stateFile == if ok then Some(banned) else old(stateFile)
      ensures failedStates == old(failedStates) + if ok then 0 else 1
    {
      ok := *;
      if ok {
        stateFile := Some(banned);
      } else {
        failedStates := failedStates + 1;
      }
    }
  }

  class NginxExecutor {
    const format: FileFormat
    const ttl: int
    const minLevel: string
    const batchSize: int
    const hasStateFile: bool
    const disk: Disk
    const clock: Clock
    const ctx: Context
    var banned: map<string, Time>
    var executed: nat
    var skipped: nat
    var errors: nat

    /** When each address was last accepted from an event or found in the list file. */
    ghost var since: map<string, Time>
    /** How many events were accepted. */
    ghost var accepted: nat
    /** When the sweeps so far looked at the clock. */
    ghost var passes: seq<Time>

    constructor (format: FileFormat, ttl: int, minLevel: string, batchSize: int, hasStateFile: bool,
                 disk: Disk, clock: Clock, ctx: Context)
      requires ttl > 0
      ensures Valid() && banned == map[] && since == map[] && passes == []
      ensures this.disk == disk && this.clock == clock && this.ctx == ctx && this.format == format
      ensures this.ttl == ttl && this.hasStateFile == hasStateFile
    {
      this.format, this.ttl, this.minLevel, this.batchSize := format, ttl, minLevel, batchSize;
      this.hasStateFile, this.disk, this.clock, this.ctx := hasStateFile, disk, clock, ctx;
      banned, executed, skipped, errors := map[], 0, 0, 0;
      since, accepted, passes := map[], 0, [];
    }

    /** Every banned address can be written, and every address that was accepted or found is banned
        until it is older than the TTL. */
    ghost predicate Valid()
      reads this, clock
    {
      && ttl > 0 && Writable() && SweptClean()
      && (forall ip :: ip in banned ==> ip in since && banned[ip] == since[ip])
      && (forall ip :: ip in since && ip !in banned ==> clock.t - since[ip] > ttl)
    }

    /** No ban was older than the TTL at the last sweep. */
    ghost predicate SweptClean()
      reads this`banned, this`passes, clock`t
    {
      passes != [] ==>
        var last := passes[|passes| - 1];
        last <= clock.t && forall ip :: ip in banned ==> last - banned[ip] <= ttl
    }

    ghost predicate Writable()
      reads this
    {
      forall ip :: ip in banned ==> Token(ip, format)
    }

    /** The file shows exactly the ban map, unless events wait for a flush, the map is empty, the
        context is cancelled, or a write has failed since there were `failed` failures. */
    ghost predicate InStep(buffered: nat, failed: nat)
      reads this, disk, ctx
    {
      Listed() == banned.Keys || buffered > 0 || banned == map[] || ctx.done || disk.failedLists > failed
    }

    /** The addresses the list file shows to nginx. */
    ghost function Listed(): set<string>
      reads disk`listFile
    {
      if disk.listFile.None? then {} else set ip | ip in Parsed(disk.listFile.value, format)
    }

    ghost function Saved(): map<string, Time>
      reads disk`stateFile
    {
      if hasStateFile && disk.stateFile.Some? then disk.stateFile.value else map[]
    }

    /** Loads the list file, with the saved timestamps where there are any. */
    method SyncExisting()
      requires Valid() && banned == map[] && since == map[] && passes == []
      modifies this`banned, this`since, clock`t
      ensures Valid() && since == banned && Listed() == banned.Keys && old(clock.t) <= clock.t
      ensures banned ==
        if disk.listFile.None? then map[] else Recovered(Parsed(disk.listFile.value, format), Saved(), clock.t)
    {
      var saved := if hasStateFile && disk.stateFile.Some? then disk.stateFile.value else map[];
      if disk.listFile.None? {
        return;
      }
      var now := clock.Now();
      ParsedAreTokens(disk.listFile.value, format);
      banned := Load(disk.listFile.value, saved, now);
      since := banned;
    }

    method Load(text: string, saved: map<string, Time>, now: Time) returns (loaded: map<string, Time>)
      ensures loaded == Recovered(Parsed(text, format), saved, now)
    {
      loaded := map[];
      var lines := ScanLines(text);
      for i := 0 to |lines|
        invariant loaded == Recovered(Collected(lines[..i], Reader(format)), saved, now)
      {
        var ip := AddressOf(lines[i], format);
        RecoveredGrows(lines, i, Reader(format), saved, now);
        if ip != [] {
          loaded := loaded[ip := if ip in saved then saved[ip] else now];
        }
      }
      assert lines[..|lines|] == lines;
    }

    /** Prints the whole map in some iteration order. */
    method Print() returns (text: string, ghost order: seq<string>)
      ensures text == Printed(FILE_HEADER, order, format)
      ensures forall ip :: ip in order <==> ip in banned
    {
      text := FILE_HEADER + "\n";
      order := [];
      PrintedNone(FILE_HEADER, format);
      var todo := banned.Keys;
      while todo != {}
        invariant text == Printed(FILE_HEADER, order, format)
        invariant forall ip :: ip in banned <==> ip in order || ip in todo
        decreases todo
      {
        var ip :| ip in todo;
        PrintedGrows(FILE_HEADER, order, ip, format);
        text := text + (if format.Deny? then "deny " + ip + ";\n" else ip + " 1;\n");
        order := order + [ip];
        todo := todo - {ip};
      }
    }

    /** Writes the list file, unless the context is cancelled, the map is empty or the write fails;
        and then the state file. A written file shows exactly the map, and with the state saved a
        restart recovers it. */
    method Flush() returns (written: bool)
      requires Writable()
      modifies this`executed, this`errors, disk, ctx
      ensures old(ctx.done) ==> ctx.done
      ensures written <==> !ctx.done && banned != map[] && disk.failedLists == old(disk.failedLists)
      ensures old(disk.failedLists) <= disk.failedLists
      ensures written ==> disk.listFile.Some? && Listed() == banned.Keys
      ensures !written ==> disk.listFile == old(disk.listFile) && disk.stateFile == old(disk.stateFile)
      ensures executed == old(executed) + if written then |banned| else 0
      ensures errors - old(errors) ==
        disk.failedLists + disk.failedStates - old(disk.failedLists) - old(disk.failedStates)
      ensures written && hasStateFile ==>
        disk.stateFile == if disk.failedStates > old(disk.failedStates) then old(disk.stateFile) else Some(banned)
      ensures written && Saved() == banned ==> Restores(disk.listFile.value, Saved(), banned, format)
    {
      var cancelled := ctx.Check();
      if cancelled || |banned| == 0 {
        return false;
      }
      written := WriteMap();
      if !written {
        errors := errors + 1;
        return;
      }
      SaveState();
      executed := executed + |banned|;
    }

    method WriteMap() returns (written: bool)
      requires Writable()
      modifies disk`listFile, disk`failedLists
      ensures disk.failedLists == old(disk.failedLists) + if written then 0 else 1
      ensures !written ==> disk.listFile == old(disk.listFile)
      ensures written ==> disk.listFile.Some? && Listed() == banned.Keys
      ensures written ==> Restores(disk.listFile.value, banned, banned, format)
    {
      var text, order := Print();
      PrintedShows(order);
      written := disk.WriteList(text);
    }

    method SaveState()
      modifies this`errors, disk`stateFile, disk`failedStates
      ensures errors - old(errors) == disk.failedStates - old(disk.failedStates) >= 0
      ensures disk.stateFile ==
        if hasStateFile && disk.failedStates == old(disk.failedStates) then Some(banned) else old(disk.stateFile)
    {
      if hasStateFile {
        var saved := disk.WriteState(banned);
        if !saved {
          errors := errors + 1;
        }
      }
    }

    /** What a reader of the printed map finds. */
    lemma PrintedShows(order: seq<string>)
      requires Writable() && forall ip :: ip in order <==> ip in banned
      ensures
        var found := Parsed(Printed(FILE_HEADER, order, format), format);
        && (set ip | ip in found) == banned.Keys
        && Restores(Printed(FILE_HEADER, order, format), banned, banned, format)
    {
      assert forall i :: 0 <= i < |order| ==> order[i] in banned;
      assert banned.Keys == set ip | ip in order;
      HeaderIsComment();
      ParsedPrinted(FILE_HEADER, order, format);
      forall now ensures Recovered(order, banned, now) == banned {
        RestartRecovers(FILE_HEADER, order, banned, format, now);
      }
    }

    /** A flush of the whole map, after which nothing is waiting any more. */
    method FlushLocked(ghost buffered: nat, ghost failed: nat)
      requires Valid() && InStep(buffered, failed) && Listed() <= since.Keys && failed <= disk.failedLists
      modifies this`executed, this`errors, disk, ctx
      ensures Valid() && InStep(0, failed) && Listed() <= since.Keys && failed <= disk.failedLists
      ensures old(ctx.done) ==> ctx.done
    {
      var _ := Flush();
    }

    /** Forgets exactly the bans older than the TTL, and rewrites the file if there were any. If the
        file showed the map before and no write fails, it shows the map afterwards if and only if
        the context is not cancelled and some ban is left: when the last ban expires, the file keeps
        showing it. */
    method Sweep() returns (written: bool)
      requires Valid()
      modifies this`banned, this`executed, this`errors, this`passes, disk, ctx, clock`t
      ensures Valid() && old(clock.t) <= clock.t && (old(ctx.done) ==> ctx.done)
      ensures passes == old(passes) + [clock.t]
      ensures banned == Younger(old(banned), clock.t)
      ensures old(disk.failedLists) <= disk.failedLists
      ensures written <==>
        banned != old(banned) && !ctx.done && banned != map[] && disk.failedLists == old(disk.failedLists)
      ensures written ==> Listed() == banned.Keys
      ensures !written ==> disk.listFile == old(disk.listFile)
      ensures old(Listed()) == old(banned).Keys && banned != old(banned) && disk.failedLists == old(disk.failedLists) ==>
        (Listed() == banned.Keys <==> !ctx.done && exists ip :: ip in old(banned) && clock.t - old(banned)[ip] <= ttl)
    {
      var now := clock.Now();
      var changed := Expire(now);
      passes := passes + [now];
      if !changed {
        return false;
      }
      written := Flush();
      SomeLeft(old(banned), now);
    }

    /** The bans that are not older than the TTL. */
    function Younger(banned: map<string, Time>, now: Time): map<string, Time> {
      map ip | ip in banned && now - banned[ip] <= ttl :: banned[ip]
    }

    lemma SomeLeft(banned: map<string, Time>, now: Time)
      ensures Younger(banned, now) != map[] <==> exists ip :: ip in banned && now - banned[ip] <= ttl
      ensures Younger(banned, now) != banned ==> Younger(banned, now).Keys != banned.Keys
    {
      var left := Younger(banned, now);
      if ip :| ip in banned && now - banned[ip] <= ttl {
        assert ip in left;
      }
      if left.Keys == banned.Keys {
        assert left == banned;
      }
      assert left != map[] ==> exists ip :: ip in left;
    }

    method Expire(now: Time) returns (changed: bool)
      modifies this`banned
      ensures banned == Younger(old(banned), now)
      ensures changed <==> banned != old(banned)
    {
      changed := false;
      var todo := banned.Keys;
      while todo != {}
        invariant todo <= banned.Keys <= old(banned).Keys
        invariant forall ip :: ip in banned ==> banned[ip] == old(banned)[ip]
        invariant forall ip :: ip in old(banned) ==> (ip in banned <==> ip in todo || now - old(banned)[ip] <= ttl)
        invariant changed <==> banned != old(banned)
        decreases todo
      {
        var ip :| ip in todo;
        todo := todo - {ip};
        if now - banned[ip] > ttl {
          banned := banned - {ip};
          changed := true;
          assert ip in old(banned) && ip !in banned;
        }
      }
    }

    /** Accepts an event unless its level is too low or the address is banned already; the address
        counts as banned from now on, written or not. */
    method Register(ip: string, level: string) returns (taken: bool)
      requires Valid() && Token(ip, format)
      modifies this`banned, this`since, this`skipped, this`accepted, clock`t
      ensures Valid() && old(clock.t) <= clock.t
      ensures taken == (MeetsMinLevel(level, minLevel) && ip !in old(banned))
      ensures banned == if taken then old(banned)[ip := clock.t] else old(banned)
      ensures since == if taken then old(since)[ip := clock.t] else old(since)
      ensures skipped == old(skipped) + if taken then 0 else 1
      ensures accepted == old(accepted) + if taken then 1 else 0
    {
      taken := MeetsMinLevel(level, minLevel) && ip !in banned;
      if !taken {
        skipped := skipped + 1;
        return;
      }
      var now := clock.Now();
      banned := banned[ip := now];
      since := since[ip := now];
      accepted := accepted + 1;
    }

    /** What holds at every turn of the loop, with these addresses wanted and these found in the file
        at startup: exactly those were ever banned, and the file shows the map as far as it can. */
    ghost predicate Running(wanted: set<string>, found: set<string>, buffered: nat, failed: nat)
      reads this, disk, clock, ctx
    {
      && Valid() && InStep(buffered, failed) && failed <= disk.failedLists
      && Listed() <= since.Keys
      && since.Keys == wanted + found
    }

    /** One turn of the loop: an event, or one of the two timers. */
    method Step(input: Input, buffered: nat, ghost wanted: set<string>, ghost wanted': set<string>, ghost found: set<string>, ghost failed: nat)
      returns (rest: nat)
      requires wanted' == wanted + if Counts(input, minLevel) then {input.ip} else {}
      requires Running(wanted, found, buffered, failed) && (input.Event? ==> Token(input.ip, format))
      requires buffered == 0 || buffered < batchSize
      modifies this`banned, this`since, this`executed, this`skipped, this`errors, this`accepted, this`passes, disk, ctx, clock`t
      ensures Running(wanted', found, rest, failed)
      ensures Drained([input], rest, batchSize)
      ensures skipped + accepted == old(skipped) + old(accepted) + if input.Event? then 1 else 0
      ensures |passes| == |old(passes)| + if input.SweepTick? then 1 else 0
    {
      rest := buffered;
      match input
      case Event(ip, level) =>
        var taken := Register(ip, level);
        if taken {
          rest := rest + 1;
          if rest >= batchSize {
            FlushLocked(rest, failed);
            rest := 0;
          }
        }
      case FlushTick =>
        if rest > 0 {
          FlushLocked(rest, failed);
          rest := 0;
        }
      case SweepTick =>
        var _ := Sweep();
    }

    /** The run up to any turn of the loop, over an arbitrary list file: events, flush ticks and
        sweep ticks in any order, any write free to fail, cancellation at any time. Every event is
        accepted or skipped; the addresses ever banned are exactly those of events that count and
        those found at startup; each is banned until it is older than the TTL; the file shows the
        map exactly, with the exceptions of `InStep`; a flush tick or a full batch leaves no event
        waiting; and every sweep tick is one pass. */
    method Serve(inputs: seq<Input>) returns (buffered: nat)
      requires Valid() && banned == map[] && since == map[] && passes == []
      requires forall i :: 0 <= i < |inputs| && inputs[i].Event? ==> Token(inputs[i].ip, format)
      modifies this, disk, ctx, clock`t
      ensures Running(Wanted(inputs, minLevel), old(Listed()), buffered, old(disk.failedLists))
      ensures Drained(inputs, buffered, batchSize)
      ensures skipped + accepted == old(skipped) + old(accepted) + EventCount(inputs)
      ensures |passes| == SweepCount(inputs)
    {
      SyncExisting();
      buffered := 0;
      assert inputs[..0] == [] && Wanted([], minLevel) == {};
      for i := 0 to |inputs|
        invariant Running(Wanted(inputs[..i], minLevel), old(Listed()), buffered, old(disk.failedLists))
        invariant Drained(inputs[..i], buffered, batchSize)
        invariant skipped + accepted == old(skipped) + old(accepted) + EventCount(inputs[..i])
        invariant |passes| == SweepCount(inputs[..i])
      {
        buffered := Turn(inputs, i, buffered, old(Listed()), old(disk.failedLists));
      }
      assert inputs[..|inputs|] == inputs;
    }

    method Turn(inputs: seq<Input>, i: nat, buffered: nat, ghost found: set<string>, ghost failed: nat) returns (rest: nat)
      requires i < |inputs| && (inputs[i].Event? ==> Token(inputs[i].ip, format))
      requires Running(Wanted(inputs[..i], minLevel), found, buffered, failed) && Drained(inputs[..i], buffered, batchSize)
      modifies this`banned, this`since, this`executed, this`skipped, this`errors, this`accepted, this`passes, disk, ctx, clock`t
      ensures Running(Wanted(inputs[..i + 1], minLevel), found, rest, failed) && Drained(inputs[..i + 1], rest, batchSize)
      ensures skipped + accepted - old(skipped) - old(accepted) == EventCount(inputs[..i + 1]) - EventCount(inputs[..i])
      ensures |passes| - |old(passes)| == SweepCount(inputs[..i + 1]) - SweepCount(inputs[..i])
    {
      TurnGrows(inputs, i, minLevel, batchSize);
      rest := Step(inputs[i], buffered, Wanted(inputs[..i], minLevel), Wanted(inputs[..i + 1], minLevel), found, failed);
    }

    /** The whole run, with the final flush and sweep: exactly the addresses of events that count and
        those found at startup, as far as they are not older than the TTL, are banned; and without
        cancellation and failed writes the file shows exactly those, if there are any. */
    method Run(inputs: seq<Input>)
      requires Valid() && banned == map[] && since == map[] && passes == []
      requires forall i :: 0 <= i < |inputs| && inputs[i].Event? ==> Token(inputs[i].ip, format)
      modifies this, disk, ctx, clock`t
      ensures Valid() && Listed() <= since.Keys == Wanted(inputs, minLevel) + old(Listed())
      ensures forall ip :: ip in banned <==> ip in since && clock.t - since[ip] <= ttl
      ensures !ctx.done && disk.failedLists == old(disk.failedLists) && banned != map[] ==> Listed() == banned.Keys
      ensures skipped + accepted == old(skipped) + old(accepted) + EventCount(inputs)
      ensures |passes| == SweepCount(inputs) + 1
    {
      var buffered := Serve(inputs);
      FlushLocked(buffered, old(disk.failedLists));
      var _ := Sweep();
    }
  }

  lemma PrintedNone(header: string, format: FileFormat)
    ensures Printed(header, [], format) == header + "\n"
  {
    assert [header] + Lines([], format) + [""] == [header, ""];
    assert Join([header, ""], '\n') == header + ['\n'] + "";
  }

  lemma PrintedGrows(header: string, order: seq<string>, ip: string, format: FileFormat)
    ensures Printed(header, order + [ip], format) ==
      Printed(header, order, format) + if format.Deny? then "deny " + ip + ";\n" else ip + " 1;\n"
  {
    var parts := [header] + Lines(order, format);
    assert [header] + Lines(order + [ip], format) + [""] == parts + [Line(ip, format), ""];
    JoinLine(parts, Line(ip, format), '\n');
    var p := Printed(header, order, format);
    match format
    case Deny => assert p + ("deny " + ip + ";") + ['\n'] == p + ("deny " + ip + ";\n");
    case Geo => assert p + (ip + " 1;") + ['\n'] == p + (ip + " 1;\n");
  }
}
