/**
 Connected iterate and resume as far as the Operation Lease and the Driver Lock go:
 every way out, whether by a result or by an exception.  What the calls of a run
 do is given beforehand; each may return or throw.
 */
module ConnectedDrive {

  datatype Outcome = Completed | ApprovalRequired | InputRequired | Blocked | Aborted | Advanced | MigrationRequired

  /** A finished run gives the lease back; a paused or advanced one keeps it to be resumed. */
  predicate Finished(o: Outcome) {
    o == InputRequired || o == Completed || o == Aborted
  }

  datatype Call<T> = Returns(value: T) | Throws

  datatype Locking = Locked | LockRefused | LockThrows

  /** What the calls of one run do. */
  datatype Script = Script(
    connected: bool,
    lease: Call<bool>,
    head: Call<()>,
    scheduled: Call<bool>,
    locking: Locking,
    drive: Call<Outcome>,
    view: Call<()>,
    unlock: Call<()>,
    publish: Call<bool>,
    release: Call<()>)

  datatype Place = AtLease | AtHead | AtSetup | AtLock | AtDrive | AtUnlock | AtPublish | AtRelease

  datatype Exit =
    | NotConnected
    | LeaseFailed
    | LockFailed
    | PublishFailed
    | Finishes(outcome: Outcome)
    | Escapes(place: Place)

  /** Exits on which the lease stays: a resumable outcome, or an exception outside the guarded drive. */
  predicate KeepsLease(script: Script, e: Exit) {
    match e
    case Finishes(outcome) => !Finished(outcome)
    case Escapes(AtUnlock) => script.drive.Returns? || script.release.Throws?
    case Escapes(place) => place == AtHead || place == AtSetup || place == AtPublish || place == AtRelease
    case _ => false
  }

  class Client {
    var leased: bool
    var locked: bool
    var lockings: nat
    var unlockings: nat

    constructor ()
      ensures !leased && !locked && lockings == 0 && unlockings == 0
    {
      leased, locked, lockings, unlockings := false, false, 0, 0;
    }

    /** The lease leaves the client's cache unless the call itself throws. */
    method ReleaseLease(script: Script) returns (thrown: bool)
      modifies this`leased
      ensures thrown == script.release.Throws?
      ensures leased == (old(leased) && thrown)
    {
      thrown := script.release.Throws?;
      if !thrown { leased := false; }
    }

    method TakeLock()
      requires !locked
      modifies this`locked, this`lockings
      ensures locked && lockings == old(lockings) + 1
    {
      locked, lockings := true, lockings + 1;
    }

    /** Asking for the lock's release counts, also when the release throws. */
    method Unlock(script: Script) returns (thrown: bool)
      requires locked
      modifies this`locked, this`unlockings
      ensures !locked && unlockings == old(unlockings) + 1 && thrown == script.unlock.Throws?
    {
      locked, unlockings := false, unlockings + 1;
      thrown := script.unlock.Throws?;
    }

    /** Publish, then keep or release the lease by the outcome. */
    method PublishAndSettle(script: Script, outcome: Outcome) returns (e: Exit)
      requires leased
      modifies this`leased
      ensures leased <==> KeepsLease(script, e)
      ensures e.Finishes? ==> (leased <==> e.outcome in {ApprovalRequired, Blocked, Advanced, MigrationRequired})
      ensures e == Finishes(outcome) || e == PublishFailed || e == Escapes(AtPublish) || e == Escapes(AtRelease)
      ensures (e == Escapes(AtPublish) <==> script.publish.Throws?)
              && (e == Escapes(AtRelease) ==> script.release.Throws?)
      ensures script.release.Returns? && script.publish.Returns? ==> (e == Finishes(outcome) <==> script.publish.value)
      ensures e == Finishes(outcome) ==> script.publish == Returns(true)
      ensures e == PublishFailed <==> script.publish == Returns(false) && script.release.Returns?
      ensures e == Escapes(AtRelease)
              <==> script.release.Throws? && script.publish.Returns?
                   && (!script.publish.value || outcome in {InputRequired, Completed, Aborted})
    {
      if script.publish.Throws? {
        return Escapes(AtPublish);
      }
      if !script.publish.value {
        var thrown := ReleaseLease(script);
        return if thrown then Escapes(AtRelease) else PublishFailed;
      }
      if Finished(outcome) {
        var thrown := ReleaseLease(script);
        if thrown {
          return Escapes(AtRelease);
        }
      }
      e := Finishes(outcome);
    }

    /** The lease is held on return exactly on the exits that keep it; no Driver Lock is taken explicitly. */
    method IterateRemote(script: Script) returns (e: Exit)
      requires !leased
      modifies this`leased
      ensures leased <==> KeepsLease(script, e)
      ensures e.Finishes? ==> (leased <==> e.outcome in {ApprovalRequired, Blocked, Advanced, MigrationRequired})
      ensures e.Finishes? ==> script.publish == Returns(true) && script.drive == Returns(e.outcome)
      ensures script.connected && script.lease == Returns(true) && script.head.Returns? && script.release.Returns?
              && script.publish.Returns? ==>
                (leased <==> script.scheduled.Returns? && script.drive.Returns? && script.publish.value
                             && !Finished(script.drive.value))
      ensures e == NotConnected <==> !script.connected
      ensures e == LeaseFailed <==> script.connected && script.lease == Returns(false)
      ensures e == Escapes(AtLease) <==> script.connected && script.lease.Throws?
      ensures e == Escapes(AtHead) <==> script.connected && script.lease == Returns(true) && script.head.Throws?
      ensures e == Escapes(AtDrive) <==> Driving(script) && !Driven(script) && script.release.Returns?
      ensures e == Escapes(AtPublish) <==> Driving(script) && Driven(script) && script.publish.Throws?
      ensures e == PublishFailed
              <==> Driving(script) && Driven(script) && script.publish == Returns(false) && script.release.Returns?
    {
      if !script.connected {
        return NotConnected;
      }
      if script.lease.Throws? {
        return Escapes(AtLease);
      }
      if !script.lease.value {
        return LeaseFailed;
      }
      leased := true;
      if script.head.Throws? {
        return Escapes(AtHead);
      }
      if script.scheduled.Throws? || script.drive.Throws? {
        var thrown := ReleaseLease(script);
        return Escapes(if thrown then AtRelease else AtDrive);
      }
      e := PublishAndSettle(script, script.drive.value);
    }

    /** As iterate, under an explicit Driver Lock: once taken it is released exactly once on every exit. */
    method ResumeRemote(script: Script) returns (e: Exit)
      requires !locked
      modifies this
      ensures !locked && lockings - old(lockings) == unlockings - old(unlockings)
      ensures lockings == old(lockings) + if LockReached(script) then 1 else 0
      ensures script.connected && script.lease == Returns(true) ==> (leased <==> KeepsLease(script, e))
      ensures e.Finishes? ==> (leased <==> e.outcome in {ApprovalRequired, Blocked, Advanced, MigrationRequired})
      ensures !(script.connected && script.lease == Returns(true)) ==> leased == old(leased)
      ensures e.Finishes? ==> script.publish == Returns(true) && script.drive == Returns(e.outcome)
      ensures script.connected && script.lease == Returns(true) && script.head.Returns? && script.scheduled.Returns?
              && script.release.Returns? && script.publish.Returns? && script.unlock.Returns? ==>
                (leased <==> (script.scheduled.value ==> script.locking == Locked) && script.drive.Returns?
                             && script.publish.value && !Finished(script.drive.value))
      ensures e == NotConnected <==> !script.connected
      ensures e == LeaseFailed <==> script.connected && script.lease == Returns(false)
      ensures e == Escapes(AtLease) <==> script.connected && script.lease.Throws?
      ensures e == Escapes(AtHead) <==> script.connected && script.lease == Returns(true) && script.head.Throws?
      ensures e == Escapes(AtSetup) <==> Driving(script) && script.scheduled.Throws?
      ensures e == LockFailed
              <==> Driving(script) && script.scheduled == Returns(true) && script.locking == LockRefused
                   && script.release.Returns?
      ensures e == Escapes(AtLock)
              <==> Driving(script) && script.scheduled == Returns(true) && script.locking == LockThrows
                   && script.release.Returns?
      ensures e == Escapes(AtUnlock) <==> LockReached(script) && script.unlock.Throws?
      ensures e == PublishFailed
              <==> Driving(script) && script.scheduled.Returns? && script.drive.Returns?
                   && (script.scheduled.value ==> script.locking == Locked && script.unlock.Returns?)
                   && script.publish == Returns(false) && script.release.Returns?
    {
      if !script.connected {
        return NotConnected;
      }
      if script.lease.Throws? {
        return Escapes(AtLease);
      }
      if !script.lease.value {
        return LeaseFailed;
      }
      leased := true;
      if script.head.Throws? {
        return Escapes(AtHead);
      }
      if script.scheduled.Throws? {
        return Escapes(AtSetup);
      }
      var handle := false;
      if script.scheduled.value {
        if script.locking != Locked {
          var thrown := ReleaseLease(script);
          return if thrown then Escapes(AtRelease) else if script.locking == LockRefused then LockFailed
                 else Escapes(AtLock);
        }
        TakeLock();
        handle := true;
      }
      var raised, place := script.drive.Throws?, AtDrive;
      if raised {
        var thrown := ReleaseLease(script);
        if thrown { place := AtRelease; }
      }
      if handle {
        var thrown := Unlock(script);
        if thrown { raised, place := true, AtUnlock; }
      }
      if raised {
        return Escapes(place);
      }
      e := PublishAndSettle(script, script.drive.value);
    }

    /** The local drive: no lease, and the lock is released exactly once if it was taken. */
    method DriveWithScheduler(script: Script) returns (e: Exit)
      requires !locked
      modifies this`locked, this`lockings, this`unlockings
      ensures !locked && lockings - old(lockings) == unlockings - old(unlockings)
      ensures lockings == old(lockings) + if script.scheduled == Returns(true) && script.locking == Locked then 1 else 0
      ensures e.Finishes? <==> script.scheduled.Returns? && script.drive.Returns?
                               && (script.scheduled.value ==>
                                     script.locking == Locked && script.view.Returns? && script.unlock.Returns?)
      ensures e.Finishes? ==> e.outcome == script.drive.value
      ensures e == LockFailed <==> script.scheduled == Returns(true) && script.locking == LockRefused
      ensures e == Escapes(AtLock) <==> script.scheduled == Returns(true) && script.locking == LockThrows
      ensures e == Escapes(AtUnlock)
              <==> script.scheduled == Returns(true) && script.locking == Locked && script.unlock.Throws?
    {
      if script.scheduled.Throws? {
        return Escapes(AtSetup);
      }
      if !script.scheduled.value {
        return if script.drive.Throws? then Escapes(AtDrive) else Finishes(script.drive.value);
      }
      if script.locking != Locked {
        return if script.locking == LockRefused then LockFailed else Escapes(AtLock);
      }
      TakeLock();
      e := if script.drive.Throws? || script.view.Throws? then Escapes(AtDrive) else Finishes(script.drive.value);
      var thrown := Unlock(script);
      if thrown { e := Escapes(AtUnlock); }
    }
  }

  /** The run gets as far as setting the drive up, with the lease in hand. */
  predicate Driving(script: Script) {
    script.connected && script.lease == Returns(true) && script.head.Returns?
  }

  /** Setting up and driving raise nothing. */
  predicate Driven(script: Script) {
    script.scheduled.Returns? && script.drive.Returns?
  }

  /** The run gets as far as taking the Driver Lock. */
  predicate LockReached(script: Script) {
    && script.connected && script.lease == Returns(true) && script.head.Returns?
    && script.scheduled == Returns(true) && script.locking == Locked
  }
}
