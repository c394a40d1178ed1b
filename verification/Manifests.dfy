/** The counters a manifest carries (db/version_set.cc): what LogAndApply writes into each
    edit, and what Recover reads back. */
module Manifests {
  import opened Coding

  /** The counters of an edit, each present or not. */
  datatype Marks = Marks(log: Option<nat>, prevLog: Option<nat>, nextFile: Option<nat>, lastSequence: Option<nat>)

  /** The counters of a version set. */
  datatype Counters = Counters(log: nat, prevLog: nat, nextFile: nat, lastSequence: nat)

  datatype Counter = LogNumber | PrevLogNumber | NextFileNumber | LastSequence

  function Get(c: Counter, m: Marks): Option<nat> {
    match c
    case LogNumber => m.log
    case PrevLogNumber => m.prevLog
    case NextFileNumber => m.nextFile
    case LastSequence => m.lastSequence
  }

  function Or(mark: Option<nat>, default: nat): nat {
    if mark.Some? then mark.value else default
  }

  class VersionSet {
    var counters: Counters
    /** The edits written to the manifest. */
    var manifest: seq<Marks>

    constructor (counters: Counters)
      ensures this.counters == counters && manifest == []
    {
      this.counters, manifest := counters, [];
    }

    /** Every manifest this object has written carries its present log numbers, and the
        file number and sequence of the last call. */
    ghost predicate Valid()
      reads this
    {
      manifest != [] ==>
        var m := manifest[|manifest| - 1];
        && m == Marks(Some(counters.log), Some(counters.prevLog), m.nextFile, m.lastSequence)
        && m.nextFile.Some? && m.lastSequence.Some?
        && m.nextFile.value <= counters.nextFile && m.lastSequence.value <= counters.lastSequence
    }

    /** Numbers handed out and sequences published between calls. */
    method Advance(files: nat, sequences: nat)
      requires Valid()
      modifies this`counters
      ensures Valid() && counters == old(counters).(nextFile := old(counters).nextFile + files,
                                                    lastSequence := old(counters).lastSequence + sequences)
    {
      counters := counters.(nextFile := counters.nextFile + files, lastSequence := counters.lastSequence + sequences);
    }

    /** LogAndApply: absent log numbers are filled in, file number and sequence always. */
    method LogAndApply(edit: Marks)
      requires Valid()
      modifies this
      ensures Valid()
      ensures counters == old(counters).(log := Or(edit.log, old(counters).log), prevLog := Or(edit.prevLog, old(counters).prevLog))
      ensures |manifest| == |old(manifest)| + 1 && manifest[..|old(manifest)|] == old(manifest)
      ensures var m := manifest[|old(manifest)|];
        m.nextFile == Some(old(counters).nextFile) && m.lastSequence == Some(old(counters).lastSequence)
    {
      var log, prevLog := Or(edit.log, counters.log), Or(edit.prevLog, counters.prevLog);
      manifest := manifest + [Marks(Some(log), Some(prevLog), Some(counters.nextFile), Some(counters.lastSequence))];
      counters := counters.(log := log, prevLog := prevLog);
    }

    /** What recovery makes of this object's manifest: the same log numbers and the
        sequence of the last call, and a file number no earlier call had handed out. */
    method Reopen() returns (r: Option<Counters>)
      requires Valid()
      ensures r.Some? <==> manifest != []
      ensures r.Some? ==>
        var m := manifest[|manifest| - 1];
        && r.value.log == counters.log && r.value.prevLog == counters.prevLog
        && r.value.lastSequence == m.lastSequence.value <= counters.lastSequence
        && r.value.nextFile == m.nextFile.value + 1
    {
      r := Recover(manifest);
      if manifest != [] {
        LastIsLatest(manifest, LogNumber);
        LastIsLatest(manifest, PrevLogNumber);
        LastIsLatest(manifest, NextFileNumber);
        LastIsLatest(manifest, LastSequence);
      }
    }
  }

  /** The latest edit that carries a counter decides it. */
  function Latest(edits: seq<Marks>, c: Counter): Option<nat> {
    if edits == [] then None
    else if Get(c, edits[|edits| - 1]).Some? then Get(c, edits[|edits| - 1])
    else Latest(edits[..|edits| - 1], c)
  }

  /** A counter comes from an edit that carries it, with no later one that does. */
  lemma {:induction false} LatestIff(edits: seq<Marks>, c: Counter)
    ensures Latest(edits, c).None? <==> forall i :: 0 <= i < |edits| ==> Get(c, edits[i]).None?
    ensures Latest(edits, c).Some? ==>
      exists i :: 0 <= i < |edits| && Get(c, edits[i]) == Latest(edits, c) && forall j :: i < j < |edits| ==> Get(c, edits[j]).None?
    decreases |edits|
  {
    if edits != [] && Get(c, edits[|edits| - 1]).None? {
      LatestIff(edits[..|edits| - 1], c);
      assert forall i :: 0 <= i < |edits| - 1 ==> edits[..|edits| - 1][i] == edits[i];
    }
  }

  lemma {:induction false} LastIsLatest(edits: seq<Marks>, c: Counter)
    requires edits != [] && Get(c, edits[|edits| - 1]).Some?
    ensures Latest(edits, c) == Get(c, edits[|edits| - 1])
  {
  }

  /** Recover: the counters of a manifest, or an error when one that must be there is
      missing; a missing previous log is zero. */
  method Recover(edits: seq<Marks>) returns (r: Option<Counters>)
    ensures r.None? <==> Latest(edits, NextFileNumber).None? || Latest(edits, LogNumber).None? || Latest(edits, LastSequence).None?
    ensures r.Some? ==>
      && Latest(edits, LogNumber) == Some(r.value.log)
      && r.value.prevLog == Or(Latest(edits, PrevLogNumber), 0)
      && r.value.nextFile >= 1 && Latest(edits, NextFileNumber) == Some(r.value.nextFile - 1)
      && Latest(edits, LastSequence) == Some(r.value.lastSequence)
  {
    var log: Option<nat>, prevLog: Option<nat>, nextFile: Option<nat>, lastSequence: Option<nat> := None, None, None, None;
    for i := 0 to |edits|
      invariant log == Latest(edits[..i], LogNumber) && prevLog == Latest(edits[..i], PrevLogNumber)
      invariant nextFile == Latest(edits[..i], NextFileNumber) && lastSequence == Latest(edits[..i], LastSequence)
    {
      assert edits[..i + 1][..i] == edits[..i];
      if edits[i].log.Some? { log := edits[i].log; }
      if edits[i].prevLog.Some? { prevLog := edits[i].prevLog; }
      if edits[i].nextFile.Some? { nextFile := edits[i].nextFile; }
      if edits[i].lastSequence.Some? { lastSequence := edits[i].lastSequence; }
    }
    assert edits[..|edits|] == edits;
    if nextFile.None? || log.None? || lastSequence.None? {
      return None;
    }
    r := Some(Counters(log.value, Or(prevLog, 0), nextFile.value + 1, lastSequence.value));
  }
}
