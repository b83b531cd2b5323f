/**
The file watcher: stamps are taken before each load, files are read one by one
while others write them, and the stamps of before the load are kept with the
loaded files. Runs interleave writes with every single stamp and read.
*/
module Watching {
  import opened StructViews

  type Path = nat

  datatype FileStamp = Present(modified: Option<nat>, len: nat) | Missing | Unseen

  /** The stamp that the file system shows for each version of a file. */
  type Stamps = (Path, nat) -> FileStamp

  // ----- the watched files

  /** The stamp of the first occurrence of a path. */
  function Known(paths: seq<Path>, stamps: seq<FileStamp>, p: Path): (r: FileStamp)
    requires |paths| == |stamps|
    ensures p !in paths ==> r == Unseen
    ensures p in paths ==> exists i :: 0 <= i < |paths| && paths[i] == p && stamps[i] == r
  {
    if paths == [] then Unseen
    else if paths[0] == p then stamps[0]
    else Known(paths[1..], stamps[1..], p)
  }

  function Carried(paths: seq<Path>, stamps: seq<FileStamp>, next: seq<Path>): (r: seq<FileStamp>)
    requires |paths| == |stamps|
    ensures |r| == |next| && forall i | 0 <= i < |next| :: r[i] == Known(paths, stamps, next[i])
  {
    seq(|next|, i requires 0 <= i < |next| => Known(paths, stamps, next[i]))
  }

  /** The watched paths and their stamps. `seen` is what the file system shows for each path, in order. */
  class WatchedFiles {
    var paths: seq<Path>
    var stamps: seq<FileStamp>

    ghost predicate Valid()
      reads this
    {
      |paths| == |stamps|
    }

    constructor (paths: seq<Path>, seen: seq<FileStamp>)
      requires |paths| == |seen|
      ensures Valid() && this.paths == paths && stamps == seen
    {
      this.paths, this.stamps := paths, seen;
    }

    method Changed(seen: seq<FileStamp>) returns (b: bool)
      requires Valid() && |seen| == |paths|
      ensures b <==> exists i :: 0 <= i < |paths| && seen[i] != stamps[i]
    {
      for i := 0 to |paths|
        invariant forall k | 0 <= k < i :: seen[k] == stamps[k]
      {
        if seen[i] != stamps[i] {
          return true;
        }
      }
      b := false;
    }

    method Refresh(seen: seq<FileStamp>)
      requires Valid() && |seen| == |paths|
      modifies this
      ensures Valid() && stamps == seen && paths == old(paths)
    {
      stamps := seen;
    }

    method AfterLoad(next: seq<Path>) returns (w: WatchedFiles)
      requires Valid()
      ensures fresh(w) && w.Valid() && w.paths == next && w.stamps == Carried(paths, stamps, next)
    {
      var carried: seq<FileStamp> := [];
      for i := 0 to |next|
        invariant |carried| == i && forall k | 0 <= k < i :: carried[k] == Known(paths, stamps, next[k])
      {
        var stamp := Find(next[i]);
        carried := carried + [stamp];
      }
      w := new WatchedFiles(next, carried);
      assert carried == Carried(paths, stamps, next);
    }

    method Find(p: Path) returns (stamp: FileStamp)
      requires Valid()
      ensures stamp == Known(paths, stamps, p)
    {
      assert paths[0..] == paths && stamps[0..] == stamps;
      for i := 0 to |paths|
        invariant Known(paths, stamps, p) == Known(paths[i..], stamps[i..], p)
      {
        if paths[i] == p {
          return stamps[i];
        }
        assert paths[i..][1..] == paths[i + 1..] && stamps[i..][1..] == stamps[i + 1..];
      }
      stamp := Unseen;
    }
  }

  // ----- runs

  datatype Phase =
    | Idle
    | Stamping(seen: seq<FileStamp>, at: seq<nat>)
    | Loading(read: map<Path, nat>)

  /**
  `taken` is the version of each watched file when its stamp was taken, and
  `loaded` the versions that the last load read, while it holds.
  */
  datatype State = State(
    disk: map<Path, nat>,
    paths: seq<Path>, stamps: seq<FileStamp>, taken: seq<Option<nat>>,
    phase: Phase,
    loaded: Option<map<Path, nat>>)

  /** A file that nobody wrote is at its first version. */
  function Version(disk: map<Path, nat>, p: Path): nat {
    if p in disk then disk[p] else 0
  }

  datatype Event =
    | Write(path: Path)
    | Poll
    | StampNext
    | ReadFile(path: Path)
    | Loaded(files: seq<Path>)
    | Refused
    | FirstRefused(entry: Path)

  function Start(entry: Option<Path>): State {
    var paths := if entry.Some? then [entry.value] else [];
    State(map p | p in paths :: 0, paths, seq(|paths|, i => Unseen), seq(|paths|, i => None), Stamping([], []), None)
  }

  /** The file is there at the version. */
  predicate IsThere(stampOf: Stamps, p: Path, v: nat) {
    !stampOf(p, v).Missing?
  }

  /** Only a file that is there can be read, or resolved after a first load that failed. */
  predicate Enabled(stampOf: Stamps, s: State, e: Event) {
    match e
    case Write(_) => true
    case Poll => s.phase.Idle?
    case StampNext => s.phase.Stamping?
    case ReadFile(p) => s.phase.Loading? && p !in s.phase.read && IsThere(stampOf, p, Version(s.disk, p))
    case Loaded(files) => s.phase.Loading? && forall p | p in files :: p in s.phase.read
    case Refused => s.phase.Loading?
    case FirstRefused(entry) => s.phase.Loading? && IsThere(stampOf, entry, Version(s.disk, entry))
  }

  function CarriedVersions(paths: seq<Path>, taken: seq<Option<nat>>, next: seq<Path>): (r: seq<Option<nat>>)
    requires |paths| == |taken|
    ensures |r| == |next| && forall i | 0 <= i < |next| :: r[i] == KnownVersion(paths, taken, next[i])
  {
    seq(|next|, i requires 0 <= i < |next| => KnownVersion(paths, taken, next[i]))
  }

  function KnownVersion(paths: seq<Path>, taken: seq<Option<nat>>, p: Path): Option<nat>
    requires |paths| == |taken|
  {
    if paths == [] then None
    else if paths[0] == p then taken[0]
    else KnownVersion(paths[1..], taken[1..], p)
  }

  predicate Sized(s: State) {
    && |s.paths| == |s.stamps| == |s.taken|
    && (s.phase.Stamping? ==> |s.phase.seen| == |s.phase.at| <= |s.paths|)
  }

  function After(stampOf: Stamps, s: State, e: Event): State
    requires Sized(s) && Enabled(stampOf, s, e)
  {
    match e
    case Write(p) => s.(disk := s.disk[p := Version(s.disk, p) + 1])
    case Poll => s.(phase := Stamping([], []))
    case StampNext =>
      var k := |s.phase.seen|;
      if k < |s.paths| then
        var v := Version(s.disk, s.paths[k]);
        s.(phase := Stamping(s.phase.seen + [stampOf(s.paths[k], v)], s.phase.at + [v]))
      else
        s.(stamps := s.phase.seen, taken := seq(k, i requires 0 <= i < k => Some(s.phase.at[i])), phase := Loading(map[]))
    case ReadFile(p) => s.(phase := Loading(s.phase.read[p := Version(s.disk, p)]))
    case Loaded(files) =>
      s.(paths := files, stamps := Carried(s.paths, s.stamps, files), taken := CarriedVersions(s.paths, s.taken, files),
         phase := Idle, loaded := Some(s.phase.read))
    case Refused => s.(phase := Idle, loaded := None)
    case FirstRefused(entry) =>
      s.(paths := [entry], stamps := Carried(s.paths, s.stamps, [entry]),
         taken := CarriedVersions(s.paths, s.taken, [entry]), phase := Idle, loaded := None)
  }

  ghost predicate Steps(stampOf: Stamps, s: State, e: Event, t: State) {
    Sized(s) && Enabled(stampOf, s, e) && t == After(stampOf, s, e)
  }

  /** The entry is watched from the start when it is there. */
  predicate CanStart(stampOf: Stamps, entry: Option<Path>) {
    entry.Some? ==> IsThere(stampOf, entry.value, 0)
  }

  ghost predicate IsRun(stampOf: Stamps, states: seq<State>, events: seq<Event>) {
    && |states| == |events| + 1
    && (exists entry :: CanStart(stampOf, entry) && states[0] == Start(entry))
    && forall i | 0 <= i < |events| :: Steps(stampOf, states[i], events[i], states[i + 1])
  }

  // ----- the invariant

  /** The file was there at some version up to this one. */
  ghost predicate WasThere(stampOf: Stamps, p: Path, v: nat) {
    exists t: nat :: t <= v && IsThere(stampOf, p, t)
  }

  /** The stamp of file `i` was seen at its version, which is past or present, and the file was there before. */
  ghost predicate Stamped(stampOf: Stamps, s: State, i: nat)
    requires Sized(s) && i < |s.paths|
  {
    && WasThere(stampOf, s.paths[i], Version(s.disk, s.paths[i]))
    && match s.taken[i]
       case None => s.stamps[i] == Unseen
       case Some(v) =>
         s.stamps[i] == stampOf(s.paths[i], v) && v <= Version(s.disk, s.paths[i]) && WasThere(stampOf, s.paths[i], v)
  }

  ghost predicate StampedNow(stampOf: Stamps, s: State, i: nat)
    requires Sized(s) && s.phase.Stamping? && i < |s.phase.seen|
  {
    && s.phase.seen[i] == stampOf(s.paths[i], s.phase.at[i]) && s.phase.at[i] <= Version(s.disk, s.paths[i])
    && WasThere(stampOf, s.paths[i], s.phase.at[i])
  }

  /** Each file was there when it was read, after its stamp was taken and not in the future. */
  ghost predicate ReadLater(stampOf: Stamps, s: State, read: map<Path, nat>) {
    && (forall p | p in read :: read[p] <= Version(s.disk, p) && IsThere(stampOf, p, read[p]))
    && (forall i | 0 <= i < |s.paths| && i < |s.taken| && s.taken[i].Some? && s.paths[i] in read ::
          s.taken[i].value <= read[s.paths[i]])
  }

  ghost predicate Inv(stampOf: Stamps, s: State) {
    && Sized(s)
    && (forall i | 0 <= i < |s.paths| :: Stamped(stampOf, s, i))
    && (s.phase.Stamping? ==> forall i | 0 <= i < |s.phase.seen| :: StampedNow(stampOf, s, i))
    && (s.phase.Loading? ==> ReadLater(stampOf, s, s.phase.read))
    && (s.phase.Idle? && s.loaded.Some? ==>
          ReadLater(stampOf, s, s.loaded.value) && forall p | p in s.paths :: p in s.loaded.value)
  }

  /** Entry `i` gives the stamp of the path, and the version of that stamp. */
  ghost predicate KnownAt(paths: seq<Path>, stamps: seq<FileStamp>, taken: seq<Option<nat>>, p: Path, i: nat)
    requires |paths| == |stamps| == |taken|
  {
    && i < |paths| && paths[i] == p
    && stamps[i] == Known(paths, stamps, p) && taken[i] == KnownVersion(paths, taken, p)
  }

  lemma {:induction false} KnownAgree(paths: seq<Path>, stamps: seq<FileStamp>, taken: seq<Option<nat>>, p: Path)
    requires |paths| == |stamps| == |taken|
    ensures p !in paths ==> KnownVersion(paths, taken, p).None?
    ensures p in paths ==> exists i: nat :: KnownAt(paths, stamps, taken, p, i)
  {
    if paths != [] {
      if paths[0] == p {
        assert KnownAt(paths, stamps, taken, p, 0);
      } else {
        KnownAgree(paths[1..], stamps[1..], taken[1..], p);
        if p in paths {
          var i: nat :| KnownAt(paths[1..], stamps[1..], taken[1..], p, i);
          assert KnownAt(paths, stamps, taken, p, i + 1);
        }
      }
    }
  }

  lemma StartInv(stampOf: Stamps, entry: Option<Path>)
    requires CanStart(stampOf, entry)
    ensures Inv(stampOf, Start(entry))
  {
  }

  /** A carried stamp is as old as the stamp it comes from. */
  lemma CarriedInv(stampOf: Stamps, s: State, next: seq<Path>, t: State, read: map<Path, nat>)
    requires Inv(stampOf, s) && s.phase.Loading? && read == s.phase.read
    requires t.disk == s.disk && t.paths == next && Sized(t)
    requires t.stamps == Carried(s.paths, s.stamps, next) && t.taken == CarriedVersions(s.paths, s.taken, next)
    requires forall p | p in next :: WasThere(stampOf, p, Version(s.disk, p))
    ensures forall i | 0 <= i < |next| :: Stamped(stampOf, t, i)
    ensures ReadLater(stampOf, t, read)
  {
    forall i | 0 <= i < |next|
      ensures Stamped(stampOf, t, i)
      ensures t.taken[i].Some? && next[i] in read ==> t.taken[i].value <= read[next[i]]
    {
      KnownAgree(s.paths, s.stamps, s.taken, next[i]);
      if next[i] in s.paths {
        var j: nat :| KnownAt(s.paths, s.stamps, s.taken, next[i], j);
        assert Stamped(stampOf, s, j);
      }
    }
  }

  lemma StepInv(stampOf: Stamps, s: State, e: Event)
    requires Inv(stampOf, s) && Enabled(stampOf, s, e)
    ensures Inv(stampOf, After(stampOf, s, e))
  {
    var t := After(stampOf, s, e);
    match e {
      case Write(p) => {
        forall i | 0 <= i < |s.paths| ensures Stamped(stampOf, t, i) { assert Stamped(stampOf, s, i); }
        if s.phase.Stamping? {
          forall i | 0 <= i < |s.phase.seen| ensures StampedNow(stampOf, t, i) { assert StampedNow(stampOf, s, i); }
        }
      }
      case StampNext => StampInv(stampOf, s);
      case ReadFile(p) => {
        forall i | 0 <= i < |s.paths|
          ensures Stamped(stampOf, t, i)
          ensures t.taken[i].Some? && t.paths[i] in t.phase.read ==> t.taken[i].value <= t.phase.read[t.paths[i]]
        {
          assert Stamped(stampOf, s, i);
        }
      }
      case Loaded(files) =>
        forall p | p in files ensures WasThere(stampOf, p, Version(s.disk, p)) { assert IsThere(stampOf, p, s.phase.read[p]); }
        CarriedInv(stampOf, s, files, t, s.phase.read);
      case FirstRefused(entry) => CarriedInv(stampOf, s, [entry], t, s.phase.read);
      case _ => {
        forall i | 0 <= i < |s.paths| ensures Stamped(stampOf, t, i) { assert Stamped(stampOf, s, i); }
      }
    }
  }

  lemma StampInv(stampOf: Stamps, s: State)
    requires Inv(stampOf, s) && s.phase.Stamping?
    ensures Inv(stampOf, After(stampOf, s, StampNext))
  {
    var t := After(stampOf, s, StampNext);
    var k := |s.phase.seen|;
    if k < |s.paths| {
      forall i | 0 <= i < |s.paths| ensures Stamped(stampOf, t, i) { assert Stamped(stampOf, s, i); }
      forall i | 0 <= i < k + 1 ensures StampedNow(stampOf, t, i) {
        if i < k { assert StampedNow(stampOf, s, i); } else { assert Stamped(stampOf, s, k); }
      }
    } else {
      forall i | 0 <= i < k ensures Stamped(stampOf, t, i) { assert StampedNow(stampOf, s, i); }
    }
  }

  lemma {:induction false} RunInv(stampOf: Stamps, states: seq<State>, events: seq<Event>, i: nat)
    requires IsRun(stampOf, states, events) && i < |states|
    ensures Inv(stampOf, states[i])
  {
    if i == 0 {
      var entry :| CanStart(stampOf, entry) && states[0] == Start(entry);
      StartInv(stampOf, entry);
    } else {
      RunInv(stampOf, states, events, i - 1);
      assert Steps(stampOf, states[i - 1], events[i - 1], states[i - 1 + 1]);
      StepInv(stampOf, states[i - 1], events[i - 1]);
    }
  }

  // ----- no update is lost

  /** What a poll sees now differs from the kept stamps. */
  ghost predicate SeesChange(stampOf: Stamps, s: State)
    requires Sized(s)
  {
    exists i | 0 <= i < |s.paths| :: stampOf(s.paths[i], Version(s.disk, s.paths[i])) != s.stamps[i]
  }

  /** The file system never shows the placeholder stamp. */
  ghost predicate ShowsFiles(stampOf: Stamps) {
    forall p, v :: !stampOf(p, v).Unseen?
  }

  /**
  Of a file that was there before, no write brings back a stamp that was shown
  before some later version of it could be read.
  */
  ghost predicate NeverReturns(stampOf: Stamps) {
    forall p: Path, t: nat, v: nat, u: nat, w: nat
      | t <= v <= u < w && IsThere(stampOf, p, t) && IsThere(stampOf, p, u) :: stampOf(p, v) != stampOf(p, w)
  }

  /** Every loaded file is as it was loaded. */
  ghost predicate UpToDate(s: State)
    requires s.loaded.Some?
  {
    forall p | p in s.paths :: p in s.loaded.value && s.loaded.value[p] == Version(s.disk, p)
  }

  ghost predicate Reachable(stampOf: Stamps, s: State) {
    exists states, events :: IsRun(stampOf, states, events) && states[|events|] == s
  }

  /** After a load, in every run, every loaded file is up to date or a poll sees a change. */
  ghost predicate LosesNothing(stampOf: Stamps) {
    forall s | Reachable(stampOf, s) && Sized(s) && s.phase.Idle? && s.loaded.Some? ::
      UpToDate(s) || SeesChange(stampOf, s)
  }

  /** Where a poll sees nothing, each file shows the stamp of before its load, and was there for both. */
  lemma MissedUpdate(stampOf: Stamps, s: State, i: nat)
    requires Inv(stampOf, s) && s.phase.Idle? && s.loaded.Some? && i < |s.paths|
    requires ShowsFiles(stampOf) && !SeesChange(stampOf, s)
    ensures s.paths[i] in s.loaded.value && s.taken[i].Some?
    ensures var p, v, u := s.paths[i], s.taken[i].value, s.loaded.value[s.paths[i]];
      && WasThere(stampOf, p, v) && IsThere(stampOf, p, u)
      && v <= u <= Version(s.disk, p)
      && stampOf(p, v) == stampOf(p, Version(s.disk, p))
  {
    assert Stamped(stampOf, s, i);
    assert stampOf(s.paths[i], Version(s.disk, s.paths[i])) == s.stamps[i];
  }

  lemma FreshLosesNothing(stampOf: Stamps)
    requires ShowsFiles(stampOf) && NeverReturns(stampOf)
    ensures LosesNothing(stampOf)
  {
    forall s | Reachable(stampOf, s) && Sized(s) && s.phase.Idle? && s.loaded.Some?
      ensures UpToDate(s) || SeesChange(stampOf, s)
    {
      var states, events :| IsRun(stampOf, states, events) && states[|events|] == s;
      RunInv(stampOf, states, events, |events|);
      if !SeesChange(stampOf, s) {
        forall p | p in s.paths ensures p in s.loaded.value && s.loaded.value[p] == Version(s.disk, p) {
          var i :| 0 <= i < |s.paths| && s.paths[i] == p;
          MissedUpdate(stampOf, s, i);
          var t: nat :| t <= s.taken[i].value && IsThere(stampOf, p, t);
          assert s.loaded.value[p] >= Version(s.disk, p);
        }
      }
    }
  }

  // ----- a stamp that comes back

  lemma ReachStart(stampOf: Stamps, entry: Option<Path>)
    requires CanStart(stampOf, entry)
    ensures Reachable(stampOf, Start(entry))
  {
    var states, events: seq<Event> := [Start(entry)], [];
    assert IsRun(stampOf, states, events) && states[|events|] == Start(entry);
  }

  lemma ReachStep(stampOf: Stamps, s: State, e: Event)
    requires Reachable(stampOf, s) && Sized(s) && Enabled(stampOf, s, e)
    ensures Reachable(stampOf, After(stampOf, s, e))
  {
    hide After, Enabled, Sized, Start;
    var states, events :| IsRun(stampOf, states, events) && states[|events|] == s;
    var t := After(stampOf, s, e);
    var longer, more := states + [t], events + [e];
    forall i | 0 <= i < |more| ensures Steps(stampOf, longer[i], more[i], longer[i + 1]) {
      if i < |events| {
        assert Steps(stampOf, states[i], events[i], states[i + 1]);
      }
    }
    assert longer[0] == states[0];
    assert IsRun(stampOf, longer, more) && longer[|more|] == t;
  }

  /** Writes take a file to any later version, in any phase. */
  lemma {:induction false} ReachVersion(stampOf: Stamps, s: State, p: Path, v: nat) returns (disk: map<Path, nat>)
    requires Reachable(stampOf, s) && Sized(s) && Version(s.disk, p) <= v
    ensures Version(disk, p) == v && Reachable(stampOf, s.(disk := disk))
    decreases v - Version(s.disk, p)
  {
    hide Reachable;
    if Version(s.disk, p) == v {
      disk := s.disk;
      assert s.(disk := disk) == s;
    } else {
      ReachStep(stampOf, s, Write(p));
      var t := After(stampOf, s, Write(p));
      disk := ReachVersion(stampOf, t, p, v);
      assert t.(disk := disk) == s.(disk := disk);
    }
  }

  /** One watched file. */
  function One(disk: map<Path, nat>, p: Path, stamp: FileStamp, taken: Option<nat>, phase: Phase, loaded: Option<map<Path, nat>>): State {
    State(disk, [p], [stamp], [taken], phase, loaded)
  }

  /** A load that finds the file for the first time watches it without a stamp. */
  lemma FirstLoad(stampOf: Stamps, disk: map<Path, nat>, p: Path)
    requires IsThere(stampOf, p, Version(disk, p))
    ensures var v, s := Version(disk, p), State(disk, [], [], [], Loading(map[]), None);
      && Steps(stampOf, s, ReadFile(p), s.(phase := Loading(map[p := v])))
      && Steps(stampOf, s.(phase := Loading(map[p := v])), Loaded([p]), One(disk, p, Unseen, None, Idle, Some(map[p := v])))
  {
    var v := Version(disk, p);
    assert map[][p := v] == map[p := v];
    var t := After(stampOf, State(disk, [], [], [], Loading(map[p := v]), None), Loaded([p]));
    assert t.stamps == [Unseen] && t.taken == [None];
  }

  lemma StampSteps(stampOf: Stamps, disk: map<Path, nat>, p: Path, stamp: FileStamp, taken: Option<nat>, loaded: Option<map<Path, nat>>)
    ensures var v := Version(disk, p);
      && Steps(stampOf, One(disk, p, stamp, taken, Stamping([], []), loaded), StampNext,
               One(disk, p, stamp, taken, Stamping([stampOf(p, v)], [v]), loaded))
      && Steps(stampOf, One(disk, p, stamp, taken, Stamping([stampOf(p, v)], [v]), loaded), StampNext,
               One(disk, p, stampOf(p, v), Some(v), Loading(map[]), loaded))
  {
    var v := Version(disk, p);
    assert [] + [stampOf(p, v)] == [stampOf(p, v)] && [] + [v] == [v];
    var t := One(disk, p, stamp, taken, Stamping([stampOf(p, v)], [v]), loaded);
    assert After(stampOf, t, StampNext).taken == [Some(v)];
  }

  lemma LoadSteps(stampOf: Stamps, disk: map<Path, nat>, p: Path, stamp: FileStamp, taken: Option<nat>, loaded: Option<map<Path, nat>>)
    requires IsThere(stampOf, p, Version(disk, p))
    ensures var u := Version(disk, p);
      && Steps(stampOf, One(disk, p, stamp, taken, Loading(map[]), loaded), ReadFile(p),
               One(disk, p, stamp, taken, Loading(map[p := u]), loaded))
      && Steps(stampOf, One(disk, p, stamp, taken, Loading(map[p := u]), loaded), Loaded([p]),
               One(disk, p, stamp, taken, Idle, Some(map[p := u])))
  {
    var u := Version(disk, p);
    assert map[][p := u] == map[p := u];
    var t := After(stampOf, One(disk, p, stamp, taken, Loading(map[p := u]), loaded), Loaded([p]));
    assert t.stamps == [stamp] && t.taken == [taken];
  }

  lemma ReachBy(stampOf: Stamps, s: State, e: Event, t: State)
    requires Reachable(stampOf, s) && Steps(stampOf, s, e, t)
    ensures Reachable(stampOf, t)
  {
    hide Reachable, After;
    ReachStep(stampOf, s, e);
  }

  /** The file is found by a load at version `t`, and the next poll takes a refresh. */
  lemma ReachPolled(stampOf: Stamps, p: Path, t: nat) returns (disk: map<Path, nat>)
    requires IsThere(stampOf, p, t)
    ensures Version(disk, p) == t
    ensures Reachable(stampOf, One(disk, p, Unseen, None, Stamping([], []), Some(map[p := t])))
  {
    hide Reachable;
    ReachStart(stampOf, None);
    var s0 := Start(None);
    ReachStep(stampOf, s0, StampNext);
    var s1 := State(map[], [], [], [], Loading(map[]), None);
    assert After(stampOf, s0, StampNext) == s1;
    disk := ReachVersion(stampOf, s1, p, t);
    FirstLoad(stampOf, disk, p);
    ReachBy(stampOf, s1.(disk := disk), ReadFile(p), State(disk, [], [], [], Loading(map[p := t]), None));
    var s2 := One(disk, p, Unseen, None, Idle, Some(map[p := t]));
    ReachBy(stampOf, State(disk, [], [], [], Loading(map[p := t]), None), Loaded([p]), s2);
    ReachStep(stampOf, s2, Poll);
  }

  /** A file found at `t`, stamped at `v`, loaded at `u`, and written on to version `w`. */
  lemma ReachLoaded(stampOf: Stamps, p: Path, t: nat, v: nat, u: nat, w: nat) returns (disk: map<Path, nat>)
    requires t <= v <= u <= w && IsThere(stampOf, p, t) && IsThere(stampOf, p, u)
    ensures Version(disk, p) == w
    ensures Reachable(stampOf, One(disk, p, stampOf(p, v), Some(v), Idle, Some(map[p := u])))
  {
    hide Reachable, Steps, IsThere;
    var first := Some(map[p := t]);
    disk := ReachPolled(stampOf, p, t);
    disk := ReachVersion(stampOf, One(disk, p, Unseen, None, Stamping([], []), first), p, v);
    StampSteps(stampOf, disk, p, Unseen, None, first);
    ReachBy(stampOf, One(disk, p, Unseen, None, Stamping([], []), first), StampNext,
            One(disk, p, Unseen, None, Stamping([stampOf(p, v)], [v]), first));
    ReachBy(stampOf, One(disk, p, Unseen, None, Stamping([stampOf(p, v)], [v]), first), StampNext,
            One(disk, p, stampOf(p, v), Some(v), Loading(map[]), first));
    disk := ReachVersion(stampOf, One(disk, p, stampOf(p, v), Some(v), Loading(map[]), first), p, u);
    LoadSteps(stampOf, disk, p, stampOf(p, v), Some(v), first);
    ReachBy(stampOf, One(disk, p, stampOf(p, v), Some(v), Loading(map[]), first), ReadFile(p),
            One(disk, p, stampOf(p, v), Some(v), Loading(map[p := u]), first));
    ReachBy(stampOf, One(disk, p, stampOf(p, v), Some(v), Loading(map[p := u]), first), Loaded([p]),
            One(disk, p, stampOf(p, v), Some(v), Idle, Some(map[p := u])));
    disk := ReachVersion(stampOf, One(disk, p, stampOf(p, v), Some(v), Idle, Some(map[p := u])), p, w);
  }

  /**
  The watcher loses no update exactly when no file that was there before shows,
  after a version that can be read, a stamp of before that version again.
  */
  lemma LosesNothingWhenFresh(stampOf: Stamps)
    requires ShowsFiles(stampOf)
    ensures LosesNothing(stampOf) <==> NeverReturns(stampOf)
  {
    if NeverReturns(stampOf) {
      FreshLosesNothing(stampOf);
    }
    if LosesNothing(stampOf) {
      forall p: Path, t: nat, v: nat, u: nat, w: nat
        | t <= v <= u < w && IsThere(stampOf, p, t) && IsThere(stampOf, p, u)
        ensures stampOf(p, v) != stampOf(p, w)
      {
        var disk := ReachLoaded(stampOf, p, t, v, u, w);
        var s := One(disk, p, stampOf(p, v), Some(v), Idle, Some(map[p := u]));
        assert Sized(s) && p in s.paths && !UpToDate(s);
        assert SeesChange(stampOf, s);
      }
    }
  }

  /** A file that is there at even versions, and gone at odd ones. */
  function Blinking(p: Path, v: nat): FileStamp {
    if v % 2 == 0 then Present(None, v) else Missing
  }

  /** That each write changes the stamp is not enough: gone when stamped, there when read, and gone again. */
  lemma ChangingStampsCanLose()
    ensures forall p: Path, v: nat :: Blinking(p, v) != Blinking(p, v + 1)
    ensures IsThere(Blinking, 0, 2) && !IsThere(Blinking, 0, 1) && !IsThere(Blinking, 0, 3)
    ensures !LosesNothing(Blinking)
  {
    LosesNothingWhenFresh(Blinking);
    assert IsThere(Blinking, 0, 0) && IsThere(Blinking, 0, 2) && Blinking(0, 1) == Blinking(0, 3);
  }
}
