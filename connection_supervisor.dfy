/**
 * The bot's `connection.update` handler: a bounded reconnect policy over one
 * process-wide counter of reconnect attempts.
 *
 * `Step` is the specification of one handler invocation (new counter value and
 * the effects it requests, in order); `Supervisor.HandleUpdate` is the handler
 * itself, updating the counter in place, and is proved to agree with `Step`.
 * `Run` strings handler invocations together over the life of the process,
 * which ends at the first exit request.
 */
module ConnectionSupervisor {
  import opened JsValues

  /** Upper bound on consecutive reconnect attempts (`MAX_ATTEMPTS`). */
  const MaxAttempts: nat := 5

  /** Delay before a scheduled reconnect, in milliseconds. */
  const ReconnectDelayMs: nat := 5000

  /** Exit status requested when the reconnect attempts are exhausted. */
  const ExhaustedExitStatus: int := 1

  /**
   * The protocol library's status code for a session that was logged out
   * (`DisconnectReason.loggedOut`). Its numeric value belongs to the library
   * and is deliberately left unspecified here.
   */
  const LoggedOut: int

  /** The `connection` field of an update: 'close', 'open', or anything else (including absent). */
  datatype Connection = Close | Open | Other

  /** The error carried by `lastDisconnect`: a Boom error with its HTTP-style status code, any other error, or none. */
  datatype Disconnect = BoomError(statusCode: int) | NonBoomError | NoError

  /** The fields of a connection update the handler inspects. */
  datatype Update = Update(connection: Connection, lastDisconnect: Disconnect, qr: Option<string>)

  /** What one handler invocation asks of the outside world. */
  datatype Effect =
    | ScheduleReconnect(delayMs: nat)   // a one-shot timer that re-enters the connect routine
    | Exit(status: int)                 // process termination
    | QrRendered(payload: string)       // the QR code was rendered to the terminal
    | QrRenderFailed(payload: string)   // rendering was attempted and threw; the error is only logged

  /** New counter value and the effects requested, in the order they are issued. */
  datatype StepResult = StepResult(counter: nat, effects: seq<Effect>)

  /**
   * The status code the handler compares against the logged-out code: the
   * Boom error's status code, or `undefined` (None) for any other error or for
   * a missing one.
   */
  function StatusCode(d: Disconnect): Option<int>
  {
    if d.BoomError? then Some(d.statusCode) else None
  }

  /** `shouldReconnect`: the close was not caused by a logout. */
  predicate ShouldReconnect(d: Disconnect)
  {
    StatusCode(d) != Some(LoggedOut)
  }

  /** A close is retryable exactly when it is not a Boom error with the logged-out status code. */
  lemma ShouldReconnectCases(d: Disconnect)
    ensures d.NonBoomError? ==> ShouldReconnect(d)
    ensures d.NoError? ==> ShouldReconnect(d)
    ensures d.BoomError? ==> (ShouldReconnect(d) <==> d.statusCode != LoggedOut)
  {
  }

  /** A reconnect or exit request, as opposed to QR rendering. */
  predicate IsControl(e: Effect)
  {
    e.ScheduleReconnect? || e.Exit?
  }

  /** The control effects: reconnects and exits, with QR rendering left out. */
  function ControlEffects(effects: seq<Effect>): (r: seq<Effect>)
    ensures |r| <= |effects|
  {
    if effects == [] then []
    else (if IsControl(effects[0]) then [effects[0]] else []) + ControlEffects(effects[1..])
  }

  lemma {:induction false} ControlEffectsAppend(a: seq<Effect>, b: seq<Effect>)
    ensures ControlEffects(a + b) == ControlEffects(a) + ControlEffects(b)
  {
    if a == [] {
      assert a + b == b;
    } else {
      var head := if IsControl(a[0]) then [a[0]] else [];
      assert (a + b)[0] == a[0] && (a + b)[1..] == a[1..] + b;
      assert ControlEffects(a + b) == head + ControlEffects(a[1..] + b);
      ControlEffectsAppend(a[1..], b);
      ConcatAssociative(head, ControlEffects(a[1..]), ControlEffects(b));
    }
  }

  /** Every reconnect and exit request survives in the control effects. */
  lemma {:induction false} ControlEffectsKeeps(effects: seq<Effect>, e: Effect)
    requires e in effects && IsControl(e)
    ensures e in ControlEffects(effects)
  {
    if effects[0] != e {
      ControlEffectsKeeps(effects[1..], e);
    }
  }

  /** A QR render was attempted during the invocation that produced `effects`. */
  predicate RenderAttempted(effects: seq<Effect>)
  {
    exists e :: e in effects && (e.QrRendered? || e.QrRenderFailed?)
  }

  /** The QR block of the handler: rendering is attempted only for a truthy payload. */
  function QrEffects(qr: Option<string>, renders: string -> bool): (r: seq<Effect>)
    ensures ControlEffects(r) == []
    ensures Truthy(qr) <==> RenderAttempted(r)
    ensures |r| <= 1
    ensures forall e :: e in r ==> e.payload == qr.value
  {
    if Truthy(qr) then
      (if renders(qr.value) then [QrRendered(qr.value)] else [QrRenderFailed(qr.value)])
    else []
  }

  /** Whether a close in counter state `counter` takes the exhausted-retries branch. */
  predicate ExhaustsRetries(counter: nat, u: Update)
  {
    u.connection == Close && counter >= MaxAttempts
  }

  /**
   * One invocation of the `connection.update` handler, starting with the
   * counter at `counter`. `renders` says whether the terminal QR renderer
   * succeeds on a payload. An exit request ends the invocation: the process
   * terminates before the QR block is reached.
   */
  function Step(counter: nat, u: Update, renders: string -> bool): (r: StepResult)
    ensures counter <= MaxAttempts ==> r.counter <= MaxAttempts
    ensures r.counter == 0 || r.counter == counter || (counter < MaxAttempts && r.counter == counter + 1)
    ensures |ControlEffects(r.effects)| <= 1
    ensures Exit(ExhaustedExitStatus) in r.effects ==> r.effects == [Exit(ExhaustedExitStatus)]
    ensures forall e :: e in r.effects && e.ScheduleReconnect? ==> e.delayMs == ReconnectDelayMs
  {
    match u.connection
    case Close =>
      if ShouldReconnect(u.lastDisconnect) && counter < MaxAttempts then
        StepResult(counter + 1, [ScheduleReconnect(ReconnectDelayMs)] + QrEffects(u.qr, renders))
      else if counter >= MaxAttempts then
        StepResult(0, [Exit(ExhaustedExitStatus)])
      else
        StepResult(0, QrEffects(u.qr, renders))
    case Open =>
      StepResult(0, QrEffects(u.qr, renders))
    case Other =>
      StepResult(counter, QrEffects(u.qr, renders))
  }

  /**
   * A retryable close below the bound increments the counter by exactly one
   * and schedules exactly one reconnect, with no exit.
   */
  lemma RetryableCloseSchedulesOneReconnect(counter: nat, u: Update, renders: string -> bool)
    requires u.connection == Close && ShouldReconnect(u.lastDisconnect) && counter < MaxAttempts
    ensures Step(counter, u, renders).counter == counter + 1
    ensures ControlEffects(Step(counter, u, renders).effects) == [ScheduleReconnect(ReconnectDelayMs)]
  {
  }

  /**
   * A close with the counter at the bound or above resets the counter and
   * requests exit with status 1, whatever the disconnect reason, a logout
   * included: the exhausted-retries test comes before the logged-out one.
   */
  lemma ExhaustedCloseExits(counter: nat, u: Update, renders: string -> bool)
    requires u.connection == Close && counter >= MaxAttempts
    ensures ExhaustsRetries(counter, u)
    ensures Step(counter, u, renders) == StepResult(0, [Exit(ExhaustedExitStatus)])
  {
  }

  /** A logged-out close below the bound resets the counter quietly: no reconnect, no exit. */
  lemma LoggedOutCloseResets(counter: nat, u: Update, renders: string -> bool)
    requires u.connection == Close && u.lastDisconnect == BoomError(LoggedOut) && counter < MaxAttempts
    ensures Step(counter, u, renders).counter == 0
    ensures ControlEffects(Step(counter, u, renders).effects) == []
  {
  }

  /** An open update resets the counter from any value and requests no reconnect or exit. */
  lemma OpenResets(counter: nat, u: Update, renders: string -> bool)
    requires u.connection == Open
    ensures Step(counter, u, renders).counter == 0
    ensures ControlEffects(Step(counter, u, renders).effects) == []
  {
  }

  /** Any other update leaves the counter alone and requests no reconnect or exit. */
  lemma OtherLeavesCounter(counter: nat, u: Update, renders: string -> bool)
    requires u.connection == Other
    ensures Step(counter, u, renders).counter == counter
    ensures ControlEffects(Step(counter, u, renders).effects) == []
  {
  }

  /**
   * A QR render is attempted exactly when the payload is truthy and the
   * invocation did not exit first; the payload rendered is the update's.
   */
  lemma QrRenderAttemptedIffTruthy(counter: nat, u: Update, renders: string -> bool)
    ensures RenderAttempted(Step(counter, u, renders).effects)
            <==> Truthy(u.qr) && !ExhaustsRetries(counter, u)
    ensures forall e :: e in Step(counter, u, renders).effects && (e.QrRendered? || e.QrRenderFailed?)
                        ==> e.payload == u.qr.value
  {
  }

  /**
   * Whether the renderer succeeds changes neither the new counter nor the
   * reconnect/exit outcome.
   */
  lemma RenderOutcomeIsContained(counter: nat, u: Update, renders1: string -> bool, renders2: string -> bool)
    ensures Step(counter, u, renders1).counter == Step(counter, u, renders2).counter
    ensures ControlEffects(Step(counter, u, renders1).effects) == ControlEffects(Step(counter, u, renders2).effects)
  {
  }

  /**
   * The handler over a sequence of updates delivered to one process. The
   * process ends at the first exit request, so later updates are never handled.
   */
  function Run(counter: nat, updates: seq<Update>, renders: string -> bool): (r: StepResult)
    ensures counter <= MaxAttempts ==> r.counter <= MaxAttempts
    decreases |updates|
  {
    if updates == [] then StepResult(counter, [])
    else
      var s := Step(counter, updates[0], renders);
      if ExhaustsRetries(counter, updates[0]) then s
      else
        var rest := Run(s.counter, updates[1..], renders);
        StepResult(rest.counter, s.effects + rest.effects)
  }

  /** `n` scheduled reconnects in a row. */
  function Reconnects(n: nat): (r: seq<Effect>)
    ensures |r| == n
    ensures forall e :: e in r ==> e == ScheduleReconnect(ReconnectDelayMs)
  {
    if n == 0 then [] else [ScheduleReconnect(ReconnectDelayMs)] + Reconnects(n - 1)
  }

  /** A close that is not caused by a logout. */
  predicate RetryableClose(u: Update)
  {
    u.connection == Close && ShouldReconnect(u.lastDisconnect)
  }

  /**
   * Retryable closes that do not reach the bound each schedule exactly one
   * reconnect and raise the counter by one; there is no exit.
   */
  lemma {:induction false} RetryableClosesCountUp(counter: nat, updates: seq<Update>, renders: string -> bool)
    requires forall i :: 0 <= i < |updates| ==> RetryableClose(updates[i])
    requires counter + |updates| <= MaxAttempts
    ensures Run(counter, updates, renders).counter == counter + |updates|
    ensures ControlEffects(Run(counter, updates, renders).effects) == Reconnects(|updates|)
    decreases |updates|
  {
    if updates != [] {
      var s := Step(counter, updates[0], renders);
      var rest := Run(s.counter, updates[1..], renders);
      assert s.counter == counter + 1
             && ControlEffects(s.effects) == [ScheduleReconnect(ReconnectDelayMs)] by {
        RetryableCloseSchedulesOneReconnect(counter, updates[0], renders);
      }
      assert Run(counter, updates, renders) == StepResult(rest.counter, s.effects + rest.effects) by {
        RunUnfold(counter, updates, renders);
      }
      RetryableClosesCountUp(counter + 1, updates[1..], renders);
      ControlEffectsAppend(s.effects, rest.effects);
    }
  }

  /**
   * From any counter value within the bound, retryable closes schedule one
   * reconnect each until the bound is reached; the next close requests exit
   * with status 1 and resets the counter, and nothing after it is handled.
   */
  lemma {:induction false} RetryableClosesThenExit(counter: nat, updates: seq<Update>, renders: string -> bool)
    requires forall i :: 0 <= i < |updates| ==> RetryableClose(updates[i])
    requires counter <= MaxAttempts < counter + |updates|
    ensures Run(counter, updates, renders).counter == 0
    ensures ControlEffects(Run(counter, updates, renders).effects)
            == Reconnects(MaxAttempts - counter) + [Exit(ExhaustedExitStatus)]
    decreases |updates|
  {
    if counter == MaxAttempts {
      ExhaustedRunExits(counter, updates, renders);
    } else {
      var s := Step(counter, updates[0], renders);
      var rest := Run(s.counter, updates[1..], renders);
      assert s.counter == counter + 1
             && ControlEffects(s.effects) == [ScheduleReconnect(ReconnectDelayMs)] by {
        RetryableCloseSchedulesOneReconnect(counter, updates[0], renders);
      }
      assert Run(counter, updates, renders) == StepResult(rest.counter, s.effects + rest.effects) by {
        RunUnfold(counter, updates, renders);
      }
      RetryableClosesThenExit(counter + 1, updates[1..], renders);
      ControlEffectsAppend(s.effects, rest.effects);
      ConcatAssociative([ScheduleReconnect(ReconnectDelayMs)], Reconnects(MaxAttempts - counter - 1),
                        [Exit(ExhaustedExitStatus)]);
    }
  }

  /** A process whose counter is exhausted exits on its next close, and handles nothing more. */
  lemma ExhaustedRunExits(counter: nat, updates: seq<Update>, renders: string -> bool)
    requires updates != [] && updates[0].connection == Close && counter >= MaxAttempts
    ensures Run(counter, updates, renders) == StepResult(0, [Exit(ExhaustedExitStatus)])
    ensures ControlEffects(Run(counter, updates, renders).effects) == [Exit(ExhaustedExitStatus)]
  {
  }

  /**
   * Starting from a fresh counter, five retryable closes schedule exactly five
   * reconnects; a sixth requests exit with status 1 and resets the counter.
   */
  lemma FiveRetriesThenExit(updates: seq<Update>, renders: string -> bool)
    requires |updates| == MaxAttempts + 1
    requires forall i :: 0 <= i < |updates| ==> RetryableClose(updates[i])
    ensures Run(0, updates[..MaxAttempts], renders).counter == MaxAttempts
    ensures ControlEffects(Run(0, updates[..MaxAttempts], renders).effects) == Reconnects(MaxAttempts)
    ensures Run(0, updates, renders).counter == 0
    ensures ControlEffects(Run(0, updates, renders).effects) == Reconnects(MaxAttempts) + [Exit(ExhaustedExitStatus)]
  {
    RetryableClosesCountUp(0, updates[..MaxAttempts], renders);
    RetryableClosesThenExit(0, updates, renders);
  }

  /**
   * A logout after three retryable closes resets the counter, schedules no
   * further reconnect and does not exit.
   */
  lemma LoggedOutAfterThreeRetries(updates: seq<Update>, renders: string -> bool)
    requires |updates| == 4
    requires forall i :: 0 <= i < 3 ==> RetryableClose(updates[i])
    requires updates[3].connection == Close && updates[3].lastDisconnect == BoomError(LoggedOut)
    ensures Run(0, updates, renders).counter == 0
    ensures ControlEffects(Run(0, updates, renders).effects) == Reconnects(3)
  {
    var first := Run(0, updates[..3], renders);
    RetryableClosesCountUp(0, updates[..3], renders);
    if Exit(ExhaustedExitStatus) in first.effects {
      ControlEffectsKeeps(first.effects, Exit(ExhaustedExitStatus));
      assert false;
    }
    RunAppend(0, updates[..3], updates[3..], renders);
    assert updates[..3] + updates[3..] == updates;
    assert updates[3..] == [updates[3]];
    var last := Step(first.counter, updates[3], renders);
    LoggedOutCloseResets(first.counter, updates[3], renders);
    RunUnfold(first.counter, updates[3..], renders);
    assert updates[3..][1..] == [];
    assert last.effects + [] == last.effects;
    ControlEffectsAppend(first.effects, last.effects);
  }

  lemma ConcatAssociative<T>(a: seq<T>, b: seq<T>, c: seq<T>)
    ensures a + (b + c) == (a + b) + c
  {
  }

  lemma TailOfConcat<T>(a: seq<T>, b: seq<T>)
    requires a != []
    ensures (a + b)[0] == a[0] && (a + b)[1..] == a[1..] + b
  {
  }

  /** One handler invocation that did not exit, followed by the rest of the run. */
  lemma RunUnfold(counter: nat, updates: seq<Update>, renders: string -> bool)
    requires updates != [] && !ExhaustsRetries(counter, updates[0])
    ensures Run(counter, updates, renders)
            == StepResult(Run(Step(counter, updates[0], renders).counter, updates[1..], renders).counter,
                          Step(counter, updates[0], renders).effects
                          + Run(Step(counter, updates[0], renders).counter, updates[1..], renders).effects)
  {
  }

  /** A process that has not exited handles later updates from the counter value it reached. */
  lemma {:induction false} RunAppend(counter: nat, a: seq<Update>, b: seq<Update>, renders: string -> bool)
    requires Exit(ExhaustedExitStatus) !in Run(counter, a, renders).effects
    ensures Run(counter, a + b, renders).counter == Run(Run(counter, a, renders).counter, b, renders).counter
    ensures Run(counter, a + b, renders).effects
            == Run(counter, a, renders).effects + Run(Run(counter, a, renders).counter, b, renders).effects
    decreases |a|
  {
    if a == [] {
      assert a + b == b;
    } else if ExhaustsRetries(counter, a[0]) {
      ExhaustedRunExits(counter, a, renders);
      assert false;
    } else {
      var s := Step(counter, a[0], renders);
      var ra' := Run(s.counter, a[1..], renders);
      assert Run(counter, a, renders) == StepResult(ra'.counter, s.effects + ra'.effects) by {
        RunUnfold(counter, a, renders);
      }
      assert Run(counter, a + b, renders)
             == StepResult(Run(s.counter, a[1..] + b, renders).counter,
                           s.effects + Run(s.counter, a[1..] + b, renders).effects) by {
        TailOfConcat(a, b);
        RunUnfold(counter, a + b, renders);
      }
      RunAppend(s.counter, a[1..], b, renders);
      ConcatAssociative(s.effects, ra'.effects, Run(ra'.counter, b, renders).effects);
    }
  }

  /** The process-wide supervisor state: the module-level reconnect counter. */
  class Supervisor {
    var reconnectAttempts: nat

    ghost predicate Valid()
      reads this
    {
      reconnectAttempts <= MaxAttempts
    }

    constructor ()
      ensures Valid() && reconnectAttempts == 0
    {
      reconnectAttempts := 0;
    }

    /**
     * The `connection.update` handler: updates the counter in place and
     * returns the effects it requests, in order.
     */
    method HandleUpdate(u: Update, renders: string -> bool) returns (effects: seq<Effect>)
      requires Valid()
      modifies this
      ensures Valid()
      ensures StepResult(reconnectAttempts, effects) == Step(old(reconnectAttempts), u, renders)
    {
      effects := [];
      if u.connection == Close {
        var shouldReconnect := ShouldReconnect(u.lastDisconnect);
        if shouldReconnect && reconnectAttempts < MaxAttempts {
          reconnectAttempts := reconnectAttempts + 1;
          effects := effects + [ScheduleReconnect(ReconnectDelayMs)];
        } else if reconnectAttempts >= MaxAttempts {
          reconnectAttempts := 0;
          effects := effects + [Exit(ExhaustedExitStatus)];
          return;
        } else {
          reconnectAttempts := 0;
        }
      } else if u.connection == Open {
        reconnectAttempts := 0;
      }
      if Truthy(u.qr) {
        if renders(u.qr.value) {
          effects := effects + [QrRendered(u.qr.value)];
        } else {
          effects := effects + [QrRenderFailed(u.qr.value)];
        }
      }
    }
  }
}
