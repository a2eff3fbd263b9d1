/** A process that stops between two steps of an update or an upload: its handlers do not run, and what it has written
    so far stays. Which contents are then on the disk, and which a later call can bring back. */
module ConfigCrash {
  import opened CText
  import opened ConfigUpdate

  /** Where a call stops. In the midst of a copy a part of the backup is there, in the midst of a write a part of the
      file; `InMove` is between the two steps of moving the backup back. */
  datatype Point = BeforeCopy | InCopy | AfterCopy | AfterDelete | InWrite | AfterWrite | AfterRemove | InMove

  /** The disk when a call on an existing file stops there. A configuration is written in place, a rule file is deleted
      first and the new one is moved there. */
  function Stopped(d: Disk, c: Call, at: Point): Disk {
    match at
    case BeforeCopy => d
    case InCopy => d.(backup := Left(c))
    case AfterCopy => d.(backup := d.target)
    case AfterDelete => if c.Conf? then d.(backup := d.target) else d.(backup := d.target, target := None)
    case InWrite =>
      if c.Conf? then d.(backup := d.target, target := Some(c.steps.partial))
      else d.(backup := d.target, target := None, tmp := Some(c.text))
    case AfterWrite => d.(backup := d.target, target := Some(c.text), tmp := if c.Conf? then d.tmp else None)
    case AfterRemove => d.(backup := None, target := Some(c.text), tmp := if c.Conf? then d.tmp else None)
    case InMove => Disk(Standing(d, c), None, d.target)
  }

  /** What is in place when a failing call starts to move the backup back. */
  function Standing(d: Disk, c: Call): Option<string> {
    match c
    case Conf(text, f) => Some(if f.writeFails then f.partial else text)
    case Rule(text, _, f) => if f.upload == Moved then Some(text) else if f.deleteFails then d.target else None
  }

  /** The steps of an update that goes well up to the point and fails there. */
  function UpTo(f: Steps, at: Point, was: string): Steps {
    match at
    case BeforeCopy => f.(xml := Error)
    case InCopy => f.(xml := Done, copyFails := true)
    case AfterCopy => f.(xml := Done, copyFails := false, writeFails := true, partial := was)
    case AfterDelete => f.(xml := Done, copyFails := false, writeFails := true, partial := was)
    case InWrite => f.(xml := Done, copyFails := false, writeFails := true)
    case AfterWrite => f.(xml := Done, copyFails := false, writeFails := false, validation := Error)
    case AfterRemove =>
      f.(xml := Done, copyFails := false, writeFails := false, validation := Done, removeFails := false)
    case InMove => f.(xml := Done, copyFails := false, restore := Lost)
  }

  /** A stop leaves what an update leaves that fails at that point, before the `finally` clause or inside it. */
  lemma {:induction false} UpdateStops(d: Disk, text: string, f: Steps, at: Point)
    requires text != "" && d.target.Some?
    ensures var g := UpTo(f, at, d.target.value);
      if at != InMove then Stopped(d, Conf(text, f), at) == UpdateBody(d, text, g).0
      else Update(d, text, g).1 != Done ==> Stopped(d, Conf(text, f), at) == Update(d, text, g).0
  {
  }

  /** The same for an upload over an existing file. */
  function RuleUpTo(f: RuleSteps, at: Point): RuleSteps {
    var g := f.(wrongDirectory := false, xml := Done, copyFails := false);
    match at
    case BeforeCopy => f.(xml := Error)
    case InCopy => g.(copyFails := true)
    case AfterCopy => g.(deleteFails := true, upload := Stuck)
    case AfterDelete => g.(deleteFails := false, upload := Stuck)
    case InWrite => g.(deleteFails := false, upload := Lost)
    case AfterWrite => g.(upload := Moved, logtest := Error)
    case AfterRemove => g.(upload := Moved, logtest := Done, removeFails := false)
    case InMove => g.(restore := Lost)
  }

  lemma {:induction false} UploadStops(d: Disk, text: string, f: RuleSteps, at: Point)
    requires text != "" && d.target.Some?
    ensures var g := RuleUpTo(f, at);
      if at != InMove then Stopped(d, Rule(text, true, f), at) == UploadBody(d, text, true, g).0
      else Upload(d, text, true, g).1 != Done ==> Stopped(d, Rule(text, true, f), at) == Upload(d, text, true, g).0
  {
  }

  /** The contents on the disk. */
  function Contents(d: Disk): set<Option<string>> { {d.target, d.backup, d.tmp} }

  /** Wherever a call stops before it has succeeded, the old content is still on the disk: in place, in the backup or in
      the file beside it. After that it is exactly if it was the same. */
  lemma {:induction false} OldIsNotLost(d: Disk, c: Call, at: Point)
    requires IsClean(d) && d.target.Some?
    ensures d.target in Contents(Stopped(d, c, at)) <==> at != AfterRemove || d.target == Some(c.text)
  {
  }

  /** The next update that fails early puts the backup back. The old content is then in place, whatever was written,
      exactly if the call stopped before it touched the file, or after its backup was whole and before that was moved or
      removed. */
  lemma {:induction false} NextFailureRestores(d: Disk, c: Call, at: Point, next: Call)
    requires IsClean(d) && d.target.Some? && next.Conf? && next.steps.restore == Moved
    requires FailsEarly(Stopped(d, c, at), next)
    ensures Do(Stopped(d, c, at), next).0.target ==
      match at
      case BeforeCopy => d.target
      case InCopy => if Left(c).Some? then Left(c) else d.target
      case AfterRemove => Some(c.text)
      case InMove => Standing(d, c)
      case _ => d.target
  {
  }

  /** A later update that gets as far as its own backup makes that of whatever the stopped one left in place. If it then
      fails and restores, a configuration that was written in part is the one that stays. */
  lemma {:induction false} PartialContentStays(d: Disk, c: Call, next: Call)
    requires IsClean(d) && d.target.Some? && c.Conf? && next.Conf? && next.steps.restore == Moved
    requires !FailsEarly(Stopped(d, c, InWrite), next) && !next.steps.copyFails
    requires !Succeeds(Stopped(d, c, InWrite), next)
    ensures Do(Stopped(d, c, InWrite), next).0 == Disk(Some(c.steps.partial), None, None)
  {
  }

  // ---------------------------------------------------------------- runs with stops

  datatype Happening = Whole(call: Call) | Stop(call: Call, at: Point)

  function After(d: Disk, h: Happening): Disk {
    match h
    case Whole(c) => Do(d, c).0
    case Stop(c, at) => if d.target.Some? then Stopped(d, c, at) else d
  }

  function Run(d: Disk, hs: seq<Happening>): Disk {
    if hs == [] then d else After(Run(d, hs[..|hs| - 1]), hs[|hs| - 1])
  }

  /** The contents that a call brings: its text, and what its failing steps leave of a copy or of a write. */
  function Given(c: Call): set<Option<string>> {
    {Some(c.text), Left(c), None} + if c.Conf? then {Some(c.steps.partial)} else {}
  }

  lemma {:induction false} DoBrings(d: Disk, c: Call)
    ensures Contents(Do(d, c).0) <= Contents(d) + Given(c)
  {
  }

  lemma {:induction false} StopBrings(d: Disk, c: Call, at: Point)
    ensures Contents(Stopped(d, c, at)) <= Contents(d) + Given(c)
  {
  }

  /** After any run of calls and stops, whatever fails, everything on the disk was there at the start or was brought by
      one of the calls. */
  lemma {:induction false} NothingFromNowhere(d: Disk, hs: seq<Happening>, x: Option<string>)
    requires x in Contents(Run(d, hs))
    ensures x in Contents(d) || exists i :: 0 <= i < |hs| && x in Given(hs[i].call)
    decreases |hs|
  {
    hide Do, Stopped, Contents, Given;
    if hs != [] {
      var n := |hs| - 1;
      var front, h := hs[..n], hs[n];
      var before := Run(d, front);
      DoBrings(before, h.call);
      if h.Stop? {
        StopBrings(before, h.call, h.at);
      }
      if x !in Given(h.call) {
        NothingFromNowhere(d, front, x);
        if x !in Contents(d) {
          var i :| 0 <= i < |front| && x in Given(front[i].call);
          assert hs[i] == front[i];
        }
      }
    }
  }
}
