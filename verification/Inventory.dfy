/** The software collector: a full list every twelve hours, only new and updated packages in between.
    Does the server, folding everything it was ever sent, know the current versions? */
module Inventory {
  import opened Shared

  datatype Package = Package(name: string, version: string)

  type Versions = map<string, string>

  const TWELVE_HOURS: int := 12 * 60 * 60 * 1000

  // Times in milliseconds; sent: the lists sent so far.
  datatype State = State(lastPackages: Versions, lastFullScan: int, sent: seq<seq<Package>>)

  // Last write wins.
  function Fold(m: Versions, list: seq<Package>): Versions
    decreases |list|
  {
    if list == [] then m else Fold(m[list[0].name := list[0].version], list[1..])
  }

  predicate Changed(p: Package, last: Versions) {
    Lookup(last, p.name) != Some(p.version)
  }

  function NewOrUpdated(scan: seq<Package>, last: Versions): seq<Package> {
    if scan == [] then []
    else (if Changed(scan[0], last) then [scan[0]] else []) + NewOrUpdated(scan[1..], last)
  }

  predicate FullDue(s: State, now: int) {
    now - s.lastFullScan >= TWELVE_HOURS
  }

  // One iteration of the collector's loop, for a scan that succeeded.
  function Iterate(s: State, scan: seq<Package>, now: int): State {
    var toSend := if FullDue(s, now) then scan else NewOrUpdated(scan, s.lastPackages);
    var dated := if FullDue(s, now) then s.(lastFullScan := now) else s;
    if toSend == [] then dated
    else dated.(sent := s.sent + [toSend], lastPackages := Fold(map[], scan))
  }

  // What the server knows.
  function Server(sent: seq<seq<Package>>): Versions {
    if sent == [] then map[] else Fold(Server(sent[..|sent| - 1]), sent[|sent| - 1])
  }

  function LastVersion(list: seq<Package>, name: string): Option<string> {
    if list == [] then None
    else
      var later := LastVersion(list[1..], name);
      if later.Some? then later else if list[0].name == name then Some(list[0].version) else None
  }

  lemma {:induction false} FoldKeepsLast(m: Versions, list: seq<Package>, name: string)
    ensures Lookup(Fold(m, list), name) ==
            if LastVersion(list, name).Some? then LastVersion(list, name) else Lookup(m, name)
    decreases |list|
  {
    if list != [] {
      FoldKeepsLast(m[list[0].name := list[0].version], list[1..], name);
    }
  }

  lemma {:induction false} FilterKeeps(scan: seq<Package>, last: Versions, p: Package)
    ensures p in NewOrUpdated(scan, last) <==> p in scan && Lookup(last, p.name) != Some(p.version)
  {
    if scan != [] {
      FilterKeeps(scan[1..], last, p);
      assert p in scan <==> p == scan[0] || p in scan[1..];
    }
  }

  /** What one iteration sends: the full list if the last one is twelve hours old, and else exactly the
      packages that are not remembered in their version, if there are any; what is sent is remembered,
      by the last version of each name. */
  lemma IterationSends(s: State, scan: seq<Package>, now: int, p: Package)
    ensures var n := Iterate(s, scan, now);
            && (n.sent == s.sent
                || (|n.sent| == |s.sent| + 1 && n.sent[..|s.sent|] == s.sent && n.sent[|s.sent|] != []))
            && if now - s.lastFullScan >= 43_200_000 then
                 n.lastFullScan == now && n.sent == (if scan == [] then s.sent else s.sent + [scan])
               else
                 && n.lastFullScan == s.lastFullScan
                 && (n.sent == s.sent ==> !(p in scan && Lookup(s.lastPackages, p.name) != Some(p.version)))
                 && (n.sent != s.sent ==>
                       (p in n.sent[|s.sent|] <==> p in scan && Lookup(s.lastPackages, p.name) != Some(p.version)))
    ensures var n := Iterate(s, scan, now);
            if n.sent == s.sent then n.lastPackages == s.lastPackages
            else Lookup(n.lastPackages, p.name) == LastVersion(scan, p.name)
  {
    hide NewOrUpdated, Fold, LastVersion;
    FilterKeeps(scan, s.lastPackages, p);
    FoldKeepsLast(map[], scan, p.name);
    if Iterate(s, scan, now).sent != s.sent && LastVersion(scan, p.name).None? {
      assert Lookup(Fold(map[], scan), p.name) == None;
    }
  }

  /** The first list is full. */
  lemma FirstListIsFull(start: int, scan: Scan)
    requires scan.now >= start && scan.packages != []
    ensures Run(start, [scan]).sent == [scan.packages]
  {
    assert [scan][..0] == [];
  }

  // The server and the collector's memory agree on every remembered package.
  ghost predicate Remembered(s: State) {
    forall name :: name in s.lastPackages ==> Lookup(Server(s.sent), name) == Some(s.lastPackages[name])
  }

  // The server knows the current version of every installed package.
  ghost predicate UpToDate(s: State, scan: seq<Package>) {
    forall name :: LastVersion(scan, name).Some? ==> Lookup(Server(s.sent), name) == LastVersion(scan, name)
  }

  // For each name: if any entry of the scan differs from what was remembered, the last one does.
  predicate LastEntryDecides(scan: seq<Package>, last: Versions) {
    forall i :: 0 <= i < |scan| && Changed(scan[i], last) ==>
      LastVersion(scan, scan[i].name) != Lookup(last, scan[i].name)
  }

  // One step of the filter, seen from one name.
  lemma {:induction false} LastChanged(scan: seq<Package>, last: Versions, name: string)
    ensures LastVersion(scan, name) != Lookup(last, name) ==>
              LastVersion(NewOrUpdated(scan, last), name) == LastVersion(scan, name)
    ensures LastVersion(NewOrUpdated(scan, last), name).Some? ==>
              LastVersion(NewOrUpdated(scan, last), name) != Lookup(last, name)
              && exists i :: 0 <= i < |scan| && scan[i].name == name && Changed(scan[i], last)
    ensures LastVersion(NewOrUpdated(scan, last), name).None? ==>
              forall i :: 0 <= i < |scan| && scan[i].name == name ==> !Changed(scan[i], last)
  {
    if scan != [] {
      var rest := scan[1..];
      LastChanged(rest, last, name);
      assert forall i :: 0 < i < |scan| ==> scan[i] == rest[i - 1];
      if LastVersion(NewOrUpdated(rest, last), name).Some? {
        var i :| 0 <= i < |rest| && rest[i].name == name && Changed(rest[i], last);
        EntryHasLast(rest, i);
      }
      if Changed(scan[0], last) {
        assert NewOrUpdated(scan, last)[1..] == NewOrUpdated(rest, last);
      } else {
        assert NewOrUpdated(scan, last) == NewOrUpdated(rest, last);
      }
    }
  }

  lemma ServerAfter(sent: seq<seq<Package>>, list: seq<Package>, name: string)
    ensures Lookup(Server(sent + [list]), name) ==
            if LastVersion(list, name).Some? then LastVersion(list, name) else Lookup(Server(sent), name)
  {
    assert (sent + [list])[..|sent|] == sent;
    FoldKeepsLast(Server(sent), list, name);
  }

  lemma {:induction false} LastVersionIsListed(list: seq<Package>, name: string)
    requires LastVersion(list, name).Some?
    ensures exists i :: 0 <= i < |list| && list[i] == Package(name, LastVersion(list, name).value)
  {
    if LastVersion(list[1..], name).Some? {
      LastVersionIsListed(list[1..], name);
      var i :| 0 <= i < |list| - 1 && list[1..][i] == Package(name, LastVersion(list, name).value);
      assert list[i + 1] == list[1..][i];
    }
  }

  /** One iteration brings the server up to date exactly when a full list is due or, for every
      package, its last entry in the scan decides whether it is sent. */
  lemma IterationIsUpToDateIff(s: State, scan: seq<Package>, now: int)
    requires Remembered(s)
    ensures UpToDate(Iterate(s, scan, now), scan) <==>
            FullDue(s, now) || LastEntryDecides(scan, s.lastPackages)
  {
    var n := Iterate(s, scan, now);
    var list := if FullDue(s, now) then scan else NewOrUpdated(scan, s.lastPackages);
    assert n.sent == if list == [] then s.sent else s.sent + [list];
    forall name ensures Lookup(Server(n.sent), name) ==
        if LastVersion(list, name).Some? then LastVersion(list, name) else Lookup(Server(s.sent), name) {
      ServerAfter(s.sent, list, name);
    }
    if !FullDue(s, now) {
      PartialIsUpToDateIff(s, n, scan);
    }
  }

  lemma PartialIsUpToDateIff(s: State, n: State, scan: seq<Package>)
    requires Remembered(s)
    requires var list := NewOrUpdated(scan, s.lastPackages);
             forall name :: Lookup(Server(n.sent), name) ==
               if LastVersion(list, name).Some? then LastVersion(list, name) else Lookup(Server(s.sent), name)
    ensures UpToDate(n, scan) <==> LastEntryDecides(scan, s.lastPackages)
  {
    hide NewOrUpdated, Server;
    var last := s.lastPackages;
    if LastEntryDecides(scan, last) {
      forall name | LastVersion(scan, name).Some?
        ensures Lookup(Server(n.sent), name) == LastVersion(scan, name)
      {
        LastChanged(scan, last, name);
        LastVersionIsListed(scan, name);
      }
    } else {
      var i :| 0 <= i < |scan| && Changed(scan[i], last)
               && LastVersion(scan, scan[i].name) == Lookup(last, scan[i].name);
      var name := scan[i].name;
      LastChanged(scan, last, name);
      EntryHasLast(scan, i);
      assert Lookup(Server(n.sent), name) != LastVersion(scan, name);
    }
  }

  lemma {:induction false} EntryHasLast(list: seq<Package>, i: nat)
    requires i < |list|
    ensures LastVersion(list, list[i].name).Some?
  {
    if i > 0 {
      EntryHasLast(list[1..], i - 1);
    }
  }

  predicate DistinctNames(scan: seq<Package>) {
    forall i, j :: 0 <= i < j < |scan| ==> scan[i].name != scan[j].name
  }

  lemma DistinctNamesDecide(scan: seq<Package>, last: Versions)
    requires DistinctNames(scan)
    ensures LastEntryDecides(scan, last)
  {
    forall i | 0 <= i < |scan| && Changed(scan[i], last)
      ensures LastVersion(scan, scan[i].name) != Lookup(last, scan[i].name)
    {
      EntryHasLast(scan, i);
      LastVersionIsListed(scan, scan[i].name);
    }
  }

  lemma IterationIsRemembered(s: State, scan: seq<Package>, now: int)
    requires Remembered(s) && UpToDate(Iterate(s, scan, now), scan)
    ensures Remembered(Iterate(s, scan, now))
  {
    hide Server;
    var n := Iterate(s, scan, now);
    forall name | name in n.lastPackages ensures Lookup(Server(n.sent), name) == Some(n.lastPackages[name]) {
      if n.sent != s.sent {
        FoldKeepsLast(map[], scan, name);
      }
    }
  }

  // A run: the scans that succeeded, with their times. The first full list is due at once.
  datatype Scan = Scan(packages: seq<Package>, now: int)

  function Run(start: int, scans: seq<Scan>): State {
    if scans == [] then State(map[], start - 2 * TWELVE_HOURS, [])
    else
      var scan := scans[|scans| - 1];
      Iterate(Run(start, scans[..|scans| - 1]), scan.packages, scan.now)
  }

  /** With distinct names in each scan, after every iteration of every run the fold of all lists ever
      sent gives each installed package its current version: sending only the changes refines
      sending the full list, across any mix of full, partial and skipped sends. */
  lemma {:induction false} PartialListsRefineFullOnes(start: int, scans: seq<Scan>)
    requires forall i :: 0 <= i < |scans| ==> DistinctNames(scans[i].packages)
    ensures Remembered(Run(start, scans))
    ensures scans != [] ==> UpToDate(Run(start, scans), scans[|scans| - 1].packages)
  {
    hide Iterate, UpToDate, Remembered, LastEntryDecides;
    if scans == [] {
      NothingRemembered(start);
    } else {
      var init, scan := scans[..|scans| - 1], scans[|scans| - 1];
      var s := Run(start, init);
      PartialListsRefineFullOnes(start, init);
      DistinctNamesDecide(scan.packages, s.lastPackages);
      IterationIsUpToDateIff(s, scan.packages, scan.now);
      IterationIsRemembered(s, scan.packages, scan.now);
    }
  }

  lemma NothingRemembered(start: int)
    ensures Remembered(State(map[], start - 2 * TWELVE_HOURS, []))
  {
  }

  /** A package listed twice in one scan, the old version last, leaves the server wrong. */
  lemma DuplicateNameMisleads()
    ensures var a, b := Package("p", "1"), Package("p", "2");
            var s := Run(0, [Scan([a], 0), Scan([b, a], 1)]);
            !UpToDate(s, [b, a])
  {
    var a, b := Package("p", "1"), Package("p", "2");
    var scans := [Scan([a], 0), Scan([b, a], 1)];
    assert scans[..1] == [scans[0]] && scans[..1][..0] == [];
    var s0 := Run(0, []);
    var s1 := Run(0, scans[..1]);
    assert s1 == Iterate(s0, [a], 0);
    FoldKeepsLast(map[], [a], "p");
    assert [a][1..] == [] && LastVersion([a], "p") == Some("1");
    assert Lookup(s1.lastPackages, "p") == Some("1") && !FullDue(s1, 1);
    PartialListsRefineFullOnes(0, scans[..1]);
    assert [b, a][1..] == [a] && LastVersion([b, a], "p") == Some("1");
    assert !LastEntryDecides([b, a], s1.lastPackages) by { assert Changed([b, a][0], s1.lastPackages); }
    IterationIsUpToDateIff(s1, [b, a], 1);
  }

  /** The collector with its loop state. */
  class SoftwareCollector {
    var lastPackages: Versions
    var lastFullScan: int
    var sent: seq<seq<Package>>

    function View(): State
      reads this
    {
      State(lastPackages, lastFullScan, sent)
    }

    constructor (start: int)
      ensures View() == Run(start, [])
    {
      lastPackages, lastFullScan, sent := map[], start - 2 * TWELVE_HOURS, [];
    }

    /** The loop over one scan: the versions by name, and the packages to report. */
    method Compare(currentPackages: seq<Package>) returns (currentMap: Versions, newOrUpdated: seq<Package>)
      ensures currentMap == Fold(map[], currentPackages)
      ensures newOrUpdated == NewOrUpdated(currentPackages, lastPackages)
    {
      currentMap, newOrUpdated := map[], [];
      var rest := currentPackages;
      assert newOrUpdated + NewOrUpdated(rest, lastPackages) == NewOrUpdated(currentPackages, lastPackages);
      while rest != []
        invariant Fold(currentMap, rest) == Fold(map[], currentPackages)
        invariant newOrUpdated + NewOrUpdated(rest, lastPackages) == NewOrUpdated(currentPackages, lastPackages)
      {
        var pkg := rest[0];
        var later := NewOrUpdated(rest[1..], lastPackages);
        currentMap := currentMap[pkg.name := pkg.version];
        if pkg.name !in lastPackages || lastPackages[pkg.name] != pkg.version {
          assert newOrUpdated + ([pkg] + later) == (newOrUpdated + [pkg]) + later;
          newOrUpdated := newOrUpdated + [pkg];
        } else {
          assert [] + later == later;
        }
        rest := rest[1..];
      }
      assert newOrUpdated + [] == newOrUpdated;
    }

    method OnScan(currentPackages: seq<Package>, now: int)
      modifies this
      ensures View() == Iterate(old(View()), currentPackages, now)
    {
      hide Fold, NewOrUpdated;
      var currentMap, newOrUpdated := Compare(currentPackages);
      var packagesToSend := [];
      if now - lastFullScan >= TWELVE_HOURS {
        packagesToSend := currentPackages;
        lastFullScan := now;
      } else if |newOrUpdated| > 0 {
        packagesToSend := newOrUpdated;
      }
      if |packagesToSend| > 0 {
        sent := sent + [packagesToSend];
        lastPackages := currentMap;
      }
    }
  }
}
