/** Replacing the manager configuration and rule files through the API: a backup is copied, the new file is written
    and validated, and on a failure the backup is moved back. Every step may fail; how it fails is an input. */
module ConfigUpdate {
  import opened CText

  /** How an operation ends: normally, with a `WazuhError`, which is reported to the caller, or with another
      exception, which gets past the handlers of `WazuhError`. */
  datatype Result = Done | Error | Raised

  /** `safe_move` moves the file beside its target and renames it there; it may fail before or between the two. */
  datatype Move = Moved | Stuck | Lost

  /** The target, its backup and the file that `safe_move` leaves beside the target. */
  datatype Disk = Disk(target: Option<string>, backup: Option<string>, tmp: Option<string>)

  predicate IsClean(d: Disk) { d.backup.None? && d.tmp.None? }

  /** How the steps go. A copy that fails leaves `left` as the backup, a write that fails leaves `partial`. */
  datatype Steps = Steps(
    xml: Result,
    copyFails: bool, left: Option<string>,
    writeFails: bool, partial: string,
    validation: Result,
    removeFails: bool,
    restore: Move)

  datatype RuleSteps = RuleSteps(
    wrongDirectory: bool,
    xml: Result,
    copyFails: bool, left: Option<string>,
    deleteFails: bool,
    upload: Move, uploadRaises: bool,
    logtest: Result,
    rollbackFails: bool,
    removeFails: bool,
    restore: Move)

  // ---------------------------------------------------------------- specification

  /** The `finally` clause: a backup that exists is moved over the target. */
  function Finally(d: Disk, r: Result, restore: Move): (Disk, Result) {
    if d.backup.None? then (d, r)
    else
      match restore
      case Moved => (Disk(d.backup, None, None), r)
      case Stuck => (d, Raised)
      case Lost => (Disk(d.target, None, d.backup), Raised)
  }

  function UpdateBody(d: Disk, conf: string, f: Steps): (Disk, Result) {
    if conf == "" then (d, Error)
    else if f.xml != Done then (d, f.xml)
    else if f.copyFails || d.target.None? then (d.(backup := f.left), Error)
    else if f.writeFails then (d.(backup := d.target, target := Some(f.partial)), Error)
    else
      var d1 := d.(backup := d.target, target := Some(conf));
      if f.validation != Done then (d1, f.validation)
      else if f.removeFails then (d1, Raised)
      else (d1.(backup := None), Done)
  }

  function Update(d: Disk, conf: string, f: Steps): (Disk, Result) {
    var (d1, r) := UpdateBody(d, conf, f);
    Finally(d1, r, f.restore)
  }

  /** The upload and the test of the rules, on a disk where the old file, if any, has its backup. */
  function Uploaded(d: Disk, content: string, overwrite: bool, f: RuleSteps): (Disk, Result) {
    var failure := if f.uploadRaises then Raised else Error;
    match f.upload
    case Stuck => (d, failure)
    case Lost => (d.(tmp := Some(content)), failure)
    case Moved =>
      var d1 := d.(target := Some(content), tmp := None);
      if f.logtest == Error && !overwrite && !f.rollbackFails then (d1.(target := None), Error)
      else (d1, f.logtest)
  }

  function UploadBody(d: Disk, content: string, overwrite: bool, f: RuleSteps): (Disk, Result, bool) {
    if f.wrongDirectory || content == "" then (d, Error, false)
    else if f.xml != Done then (d, f.xml, false)
    else if d.target.None? then
      var (d1, r) := Uploaded(d, content, overwrite, f);
      (d1, r, false)
    else if !overwrite then (d, Error, false)
    else if f.copyFails then (d.(backup := f.left), Error, true)
    else
      var d1 := d.(backup := d.target, target := if f.deleteFails then d.target else None);
      var (d2, r) := Uploaded(d1, content, overwrite, f);
      if r != Done then (d2, r, true)
      else if f.removeFails then (d2, Raised, true)
      else (d2.(backup := None), Done, true)
  }

  /** Without a name for the backup, the `finally` clause does nothing. */
  function Upload(d: Disk, content: string, overwrite: bool, f: RuleSteps): (Disk, Result) {
    var (d1, r, named) := UploadBody(d, content, overwrite, f);
    if named then Finally(d1, r, f.restore) else (d1, r)
  }

  // ---------------------------------------------------------------- the operations

  class Files {
    var target: Option<string>
    var backup: Option<string>
    var tmp: Option<string>

    ghost function Abstract(): Disk
      reads this
    {
      Disk(target, backup, tmp)
    }

    /** `full_copy` of the target to the backup. */
    method FullCopy(fails: bool, left: Option<string>) returns (ok: bool)
      modifies this`backup
      ensures ok <==> !fails && target.Some?
      ensures backup == if ok then target else left
    {
      ok := !fails && target.Some?;
      backup := if ok then target else left;
    }

    /** `safe_move` of the backup to the target. */
    method MoveBack(restore: Move) returns (ok: bool)
      requires backup.Some?
      modifies this
      ensures ok <==> restore == Moved
      ensures Abstract() == Finally(old(Abstract()), Done, restore).0
    {
      if restore == Stuck {
        return false;
      }
      tmp, backup := backup, None;
      if restore == Lost {
        return false;
      }
      target, tmp := tmp, None;
      return true;
    }

    /** `safe_move` of the temporary file with the new content to the target, in `upload_file`. */
    method UploadFile(content: string, upload: Move) returns (ok: bool)
      modifies this`target, this`tmp
      ensures ok <==> upload == Moved
      ensures target == if ok then Some(content) else old(target)
      ensures tmp == if ok then None else if upload == Lost then Some(content) else old(tmp)
    {
      if upload == Stuck {
        return false;
      }
      tmp := Some(content);
      if upload == Lost {
        return false;
      }
      target, tmp := tmp, None;
      return true;
    }

    /** `update_ossec_conf`. */
    method UpdateOssecConf(conf: string, f: Steps) returns (r: Result)
      modifies this
      ensures (Abstract(), r) == Update(old(Abstract()), conf, f)
    {
      r := TryUpdate(conf, f);
      if backup.Some? {
        var ok := MoveBack(f.restore);
        if !ok {
          r := Raised;
        }
      }
    }

    method TryUpdate(conf: string, f: Steps) returns (r: Result)
      modifies this
      ensures (Abstract(), r) == UpdateBody(old(Abstract()), conf, f)
    {
      if conf == "" {
        return Error;
      }
      if f.xml != Done {
        return f.xml;
      }
      var copied := FullCopy(f.copyFails, f.left);
      if !copied {
        return Error;
      }
      if f.writeFails {
        target := Some(f.partial);
        return Error;
      }
      target := Some(conf);
      if f.validation != Done {
        return f.validation;
      }
      if backup.Some? {
        if f.removeFails {
          return Raised;
        }
        backup := None;
      }
      return Done;
    }

    /** `upload_rule_file`; `content` is the text with the values that look like formulas quoted. */
    method UploadRuleFile(content: string, overwrite: bool, f: RuleSteps) returns (r: Result)
      modifies this
      ensures (Abstract(), r) == Upload(old(Abstract()), content, overwrite, f)
    {
      var named;
      r, named := TryUpload(content, overwrite, f);
      if named && backup.Some? {
        var ok := MoveBack(f.restore);
        if !ok {
          r := Raised;
        }
      }
    }

    method TryUpload(content: string, overwrite: bool, f: RuleSteps) returns (r: Result, named: bool)
      modifies this
      ensures (Abstract(), r, named) == UploadBody(old(Abstract()), content, overwrite, f)
    {
      named := false;
      if f.wrongDirectory {
        return Error, named;
      }
      if |content| == 0 {
        return Error, named;
      }
      if f.xml != Done {
        return f.xml, named;
      }
      if !overwrite && target.Some? {
        return Error, named;
      } else if overwrite && target.Some? {
        named := true;
        var copied := FullCopy(f.copyFails, f.left);
        if !copied {
          return Error, named;
        }
        if !f.deleteFails {
          target := None;
        }
      }
      var uploaded := UploadFile(content, f.upload);
      if !uploaded {
        return if f.uploadRaises then Raised else Error, named;
      }
      if f.logtest == Error {
        if !overwrite && target.Some? && !f.rollbackFails {
          target := None;
        }
      }
      if f.logtest != Done {
        return f.logtest, named;
      }
      if named && backup.Some? {
        if f.removeFails {
          return Raised, named;
        }
        backup := None;
      }
      return Done, named;
    }
  }

  // ---------------------------------------------------------------- failure atomicity

  /** An update succeeds exactly when every step does; then the new configuration is in place and nothing else is
      left behind, whatever was there before. */
  lemma {:induction false} UpdateSucceeds(d: Disk, conf: string, f: Steps)
    ensures var (d', r) := Update(d, conf, f);
      && (r == Done <==> conf != "" && f.xml == Done && d.target.Some? && !f.copyFails && !f.writeFails
                         && f.validation == Done && !f.removeFails)
      && (r == Done ==> d' == Disk(Some(conf), None, d.tmp))
  {
  }

  /** A failing update is reported as an error, unless a step before or the validation raises another exception, the
      backup cannot be removed in the end, or a backup that is there cannot be moved back. */
  lemma {:induction false} UpdateFailure(d: Disk, conf: string, f: Steps)
    ensures var r := Update(d, conf, f).1;
      var early := conf == "" || f.xml != Done;
      var uncopied := f.copyFails || d.target.None?;
      var raises := conf != "" && (f.xml == Raised || (!early && !uncopied && !f.writeFails
                      && (f.validation == Raised || (f.validation == Done && f.removeFails))));
      var backedUp := if early then d.backup.Some? else if uncopied then f.left.Some? else true;
      && (r == Raised <==> r != Done && (raises || (backedUp && f.restore != Moved)))
      && (r == Error <==> r != Done && !raises && (backedUp ==> f.restore == Moved))
  {
  }

  /** An update that fails leaves everything as it was exactly when it fails before the backup, or the copy fails and
      leaves no part of a backup, or what it leaves is whole and is moved back, or the backup is moved back. */
  lemma {:induction false} UpdateIsAtomic(d: Disk, conf: string, f: Steps)
    requires IsClean(d)
    ensures var (d', r) := Update(d, conf, f);
      r != Done ==>
        (d' == d <==>
          if conf == "" || f.xml != Done then true
          else if f.copyFails || d.target.None? then f.left.None? || (f.left == d.target && f.restore == Moved)
          else f.restore == Moved)
  {
  }

  /** A rule upload succeeds exactly when every step does, except that it may fail to delete the file that it is
      about to replace; then the new rules are in place and no backup is left. */
  lemma {:induction false} UploadSucceeds(d: Disk, content: string, overwrite: bool, f: RuleSteps)
    ensures var (d', r) := Upload(d, content, overwrite, f);
      && (r == Done <==>
          && !f.wrongDirectory && content != "" && f.xml == Done && f.upload == Moved && f.logtest == Done
          && (d.target.Some? ==> overwrite && !f.copyFails && !f.removeFails))
      && (r == Done ==> d' == Disk(Some(content), if d.target.Some? then None else d.backup, None))
  {
  }

  /** The steps before the backup and the upload go well. */
  predicate GetsToWork(d: Disk, content: string, overwrite: bool, f: RuleSteps) {
    !f.wrongDirectory && content != "" && f.xml == Done && (d.target.Some? ==> overwrite)
  }

  /** A failing upload is reported as an error, unless a step before, the upload or the test of the rules raises another
      exception, the backup cannot be removed in the end, or a backup that is there cannot be moved back. */
  lemma {:induction false} UploadFailure(d: Disk, content: string, overwrite: bool, f: RuleSteps)
    ensures var r := Upload(d, content, overwrite, f).1;
      var uncopied := d.target.Some? && f.copyFails;
      var works := GetsToWork(d, content, overwrite, f);
      var raises := !f.wrongDirectory && content != "" && (f.xml == Raised || (works && !uncopied
                      && (if f.upload != Moved then f.uploadRaises
                          else f.logtest == Raised || (f.logtest == Done && d.target.Some? && f.removeFails))));
      var backedUp := works && d.target.Some? && (uncopied ==> f.left.Some?);
      && (r == Raised <==> r != Done && (raises || (backedUp && f.restore != Moved)))
      && (r == Error <==> r != Done && !raises && (backedUp ==> f.restore == Moved))
  {
  }

  /** A rule upload that fails leaves everything as it was exactly when: it replaces a file and the backup is moved
      back (or the copy left none); or it adds a file and either that is not put in place, or the test of the rules
      reports an error, overwriting was not allowed and the new file can be deleted. */
  lemma {:induction false} UploadIsAtomic(d: Disk, content: string, overwrite: bool, f: RuleSteps)
    requires IsClean(d)
    ensures var (d', r) := Upload(d, content, overwrite, f);
      r != Done ==>
        (d' == d <==>
          if !GetsToWork(d, content, overwrite, f) then true
          else if d.target.Some? then
            if f.copyFails then f.left.None? || (f.left == d.target && f.restore == Moved)
            else f.restore == Moved
          else
            f.upload == Stuck
            || (f.upload == Moved && f.logtest == Error && !overwrite && !f.rollbackFails))
  {
  }

  /** The promise of the backup: if copies and moves are all or nothing and what has to be undone can be undone, a
      failure changes nothing, except for a new file that fails the test of the rules while overwriting was allowed,
      and for a new file whose test ends with another exception. */
  lemma {:induction false} UploadPromise(d: Disk, content: string, overwrite: bool, f: RuleSteps)
    requires IsClean(d) && f.left == None && f.upload != Lost && f.restore == Moved && !f.rollbackFails
    ensures var (d', r) := Upload(d, content, overwrite, f);
      r != Done ==>
        (d' == d <==>
          !(GetsToWork(d, content, overwrite, f) && d.target.None? && f.upload == Moved
            && (f.logtest == Raised || (f.logtest == Error && overwrite))))
  {
    UploadIsAtomic(d, content, overwrite, f);
  }

  /** Allowing to overwrite makes a failed upload of a new file leave it in place. */
  lemma {:induction false} InvalidRulesStay()
    ensures exists d: Disk, content: string, f: RuleSteps ::
      IsClean(d) && Upload(d, content, true, f) == (d.(target := Some(content)), Error) && d.target.None?
  {
    var d := Disk(None, None, None);
    var f := RuleSteps(false, Done, false, None, false, Moved, false, Error, false, false, Moved);
    assert Upload(d, "<rule>", true, f) == (d.(target := Some("<rule>")), Error);
  }

  /** A backup that an earlier call left replaces the configuration whenever an update fails before its own backup:
      only without one does such a failure change nothing. */
  lemma {:induction false} StaleBackup(d: Disk, conf: string, f: Steps)
    requires f.restore == Moved && d.tmp.None?
    requires conf == "" || f.xml != Done
    ensures Update(d, conf, f).0 == d <==> d.backup.None?
    ensures d.backup.Some? ==> Update(d, conf, f).0 == Disk(d.backup, None, None)
  {
  }

  // ---------------------------------------------------------------- many calls, whatever fails

  /** The calls on one file. */
  datatype Call =
    | Conf(text: string, steps: Steps)
    | Rule(text: string, overwrite: bool, ruleSteps: RuleSteps)

  function Do(d: Disk, c: Call): (Disk, Result) {
    match c
    case Conf(text, f) => Update(d, text, f)
    case Rule(text, overwrite, f) => Upload(d, text, overwrite, f)
  }

  predicate Succeeds(d: Disk, c: Call) { Do(d, c).1 == Done }

  /** The call fails before it makes a backup. */
  predicate FailsEarly(d: Disk, c: Call) {
    match c
    case Conf(text, f) => text == "" || f.xml != Done
    case Rule(text, overwrite, f) => !GetsToWork(d, text, overwrite, f)
  }

  /** A failing call leaves another content than it found. For a configuration: it fails early where a backup was
      left from before, and moves that; or what is left of a backup is moved; or the new content is not undone. For a
      rule file: what is left of a backup is moved; or the deletion or the new content is not undone; or the file is
      new and stays. */
  predicate Disturbs(d: Disk, c: Call) {
    match c
    case Conf(text, f) =>
      if FailsEarly(d, c) then d.backup.Some? && f.restore == Moved && d.backup != d.target
      else if f.copyFails || d.target.None? then f.left.Some? && f.restore == Moved && f.left != d.target
      else f.restore != Moved && d.target != Some(if f.writeFails then f.partial else text)
    case Rule(text, overwrite, f) =>
      if FailsEarly(d, c) then false
      else if d.target.None? then
        f.upload == Moved && !(f.logtest == Error && !overwrite && !f.rollbackFails)
      else if f.copyFails then f.left.Some? && f.restore == Moved && f.left != d.target
      else f.restore != Moved && (if f.upload == Moved then d.target != Some(text) else !f.deleteFails)
  }

  lemma {:induction false} DisturbsIff(d: Disk, c: Call)
    requires !Succeeds(d, c)
    ensures Do(d, c).0.target != d.target <==> Disturbs(d, c)
  {
  }

  lemma {:induction false} SuccessIs(d: Disk, c: Call)
    requires Succeeds(d, c)
    ensures Do(d, c).0.target == Some(c.text)
  {
    if c.Conf? {
      UpdateSucceeds(d, c.text, c.steps);
    } else {
      UploadSucceeds(d, c.text, c.overwrite, c.ruleSteps);
    }
  }

  function Restore(c: Call): Move { if c.Conf? then c.steps.restore else c.ruleSteps.restore }

  function Left(c: Call): Option<string> { if c.Conf? then c.steps.left else c.ruleSteps.left }

  predicate CopyFails(c: Call) { if c.Conf? then c.steps.copyFails else c.ruleSteps.copyFails }

  /** A backup is there after a call exactly when it was there before and the call did not get to it, or the call has
      one to move back and the move does not start. It holds what the file held before that call, if copies are all or
      nothing. */
  lemma {:induction false} BackupAfter(d: Disk, c: Call)
    ensures Do(d, c).0.backup.Some? <==>
      if c.Rule? && (FailsEarly(d, c) || d.target.None?) then d.backup.Some?
      else
        && Restore(c) == Stuck && !Succeeds(d, c)
        && if FailsEarly(d, c) then d.backup.Some?
           else if CopyFails(c) || d.target.None? then Left(c).Some?
           else true
    ensures Do(d, c).0.backup.Some? && Left(c) == None ==> Do(d, c).0.backup in {d.target, d.backup}
  {
  }

  function History(d: Disk, cs: seq<Call>): Disk {
    if cs == [] then d else Do(History(d, cs[..|cs| - 1]), cs[|cs| - 1]).0
  }

  lemma {:induction false} OneMoreCall(d: Disk, cs: seq<Call>, j: nat)
    requires j < |cs|
    ensures History(d, cs[..j + 1]) == Do(History(d, cs[..j]), cs[j]).0
  {
    hide Do;
    assert cs[..j + 1][..j] == cs[..j];
  }

  /** Call `i` is the last one that succeeds. */
  ghost predicate IsLastSuccess(d: Disk, cs: seq<Call>, i: nat)
    requires i < |cs|
  {
    && Succeeds(History(d, cs[..i]), cs[i])
    && forall j :: i < j < |cs| ==> !Succeeds(History(d, cs[..j]), cs[j])
  }

  lemma {:induction false} StaysUpTo(d: Disk, cs: seq<Call>, i: nat, j: nat)
    requires i < j <= |cs| && IsLastSuccess(d, cs, i)
    requires forall k :: i < k < j ==> !Disturbs(History(d, cs[..k]), cs[k])
    ensures History(d, cs[..j]).target == Some(cs[i].text)
    decreases j
  {
    hide Do, History, Succeeds, Disturbs;
    OneMoreCall(d, cs, j - 1);
    if j == i + 1 {
      SuccessIs(History(d, cs[..i]), cs[i]);
    } else {
      StaysUpTo(d, cs, i, j - 1);
      DisturbsIff(History(d, cs[..j - 1]), cs[j - 1]);
    }
  }

  /** Whatever fails in a run of calls, the content of the last one that succeeded stays in place for the rest of the
      run exactly when none of the later calls disturbs it where it comes. */
  lemma {:induction false} LastSuccessStays(d: Disk, cs: seq<Call>, i: nat)
    requires i < |cs| && IsLastSuccess(d, cs, i)
    ensures (forall j :: i < j <= |cs| ==> History(d, cs[..j]).target == Some(cs[i].text)) <==>
            (forall j :: i < j < |cs| ==> !Disturbs(History(d, cs[..j]), cs[j]))
  {
    hide Do, History, Succeeds, Disturbs;
    if forall j :: i < j <= |cs| ==> History(d, cs[..j]).target == Some(cs[i].text) {
      forall j | i < j < |cs| ensures !Disturbs(History(d, cs[..j]), cs[j]) {
        OneMoreCall(d, cs, j);
        DisturbsIff(History(d, cs[..j]), cs[j]);
        assert History(d, cs[..j + 1]).target == Some(cs[i].text);
      }
    }
    if forall j :: i < j < |cs| ==> !Disturbs(History(d, cs[..j]), cs[j]) {
      forall j | i < j <= |cs| ensures History(d, cs[..j]).target == Some(cs[i].text) {
        StaysUpTo(d, cs, i, j);
      }
    }
  }

  // ---------------------------------------------------------------- many updates whose steps are all or nothing

  /** Copies are all or nothing and the backup can be moved back. */
  predicate IsSound(c: Call) { c.Conf? && c.steps.left == None && c.steps.restore == Moved }

  lemma {:induction false} OneUpdate(d: Disk, c: Call)
    requires IsClean(d) && IsSound(c)
    ensures IsClean(Do(d, c).0)
    ensures Do(d, c).0 == if Succeeds(d, c) then d.(target := Some(c.text)) else d
  {
    UpdateSucceeds(d, c.text, c.steps);
    UpdateIsAtomic(d, c.text, c.steps);
  }

  lemma {:induction false} SoundRunIsClean(d: Disk, cs: seq<Call>)
    requires IsClean(d) && forall k :: 0 <= k < |cs| ==> IsSound(cs[k])
    ensures IsClean(History(d, cs))
    decreases |cs|
  {
    hide Do;
    if cs != [] {
      SoundRunIsClean(d, cs[..|cs| - 1]);
      OneUpdate(History(d, cs[..|cs| - 1]), cs[|cs| - 1]);
    }
  }

  /** After any number of such updates of the configuration, it is that of the last one that succeeded, and no backup
      and no temporary file is left. */
  lemma {:induction false} LastSuccessWins(d: Disk, cs: seq<Call>, i: nat)
    requires IsClean(d) && i < |cs| && forall k :: 0 <= k < |cs| ==> IsSound(cs[k])
    requires IsLastSuccess(d, cs, i)
    ensures IsClean(History(d, cs)) && History(d, cs).target == Some(cs[i].text)
  {
    hide Do, History, Succeeds, Disturbs, IsSound;
    SoundRunIsClean(d, cs);
    forall j | i < j < |cs| ensures !Disturbs(History(d, cs[..j]), cs[j]) {
      SoundRunIsClean(d, cs[..j]);
      OneUpdate(History(d, cs[..j]), cs[j]);
      DisturbsIff(History(d, cs[..j]), cs[j]);
    }
    StaysUpTo(d, cs, i, |cs|);
    assert cs[..|cs|] == cs;
  }

  /** If none succeeds, nothing changes. */
  lemma {:induction false} FailuresChangeNothing(d: Disk, cs: seq<Call>)
    requires IsClean(d) && forall k :: 0 <= k < |cs| ==> IsSound(cs[k])
    requires forall j :: 0 <= j < |cs| ==> !Succeeds(History(d, cs[..j]), cs[j])
    ensures History(d, cs) == d
    decreases |cs|
  {
    hide Do, Succeeds;
    if cs != [] {
      var n := |cs| - 1;
      var front := cs[..n];
      forall j | 0 <= j < n ensures front[..j] == cs[..j] && front[j] == cs[j] {
      }
      FailuresChangeNothing(d, front);
      OneUpdate(d, cs[n]);
    }
  }
}
