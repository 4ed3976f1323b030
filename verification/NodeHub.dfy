/**
 The Hub of one node: mirrors and suspend timers per slug, updated in place. Every method is tied to
 the node-state transition it performs and leaves every other slug as it was.
 */
module NodeHub {
  import opened Common
  import opened NodeState

  type Slug = string

  class LocalChannel {
    const channelID: int
    const ownerUserID: UserID
    var clients: map<ConnID, UserID>
    var grace: int
    var suspendEnabled: bool
    var suspended: bool
    var operatingDeadline: Option<int>
    var operatingUnlimited: bool
    var ownerAbsentSince: Option<int>
    var operatingPausedRemaining: int

    ghost function View(): Chan
      reads this
    {
      Chan(channelID, ownerUserID, clients, Grace(grace, suspendEnabled), suspended, operatingDeadline,
           operatingUnlimited, ownerAbsentSince, operatingPausedRemaining)
    }

    constructor (client: Client)
      ensures View() == FreshChan(client)
    {
      channelID, ownerUserID, clients := client.channelID, client.ownerID, map[];
      grace, suspendEnabled := 0, false;
      suspended, operatingUnlimited := client.suspended, client.unlimited;
      operatingDeadline, ownerAbsentSince := client.deadline, None;
      operatingPausedRemaining := 0;
      if client.pausedSecs.Some? && client.pausedSecs.value > 0 {
        operatingPausedRemaining := client.pausedSecs.value * SECOND;
      }
    }

    /** The scan over the connections of this node. */
    method Connected(user: UserID) returns (found: bool)
      ensures found == HasUser(clients, user)
    {
      var rest := clients.Keys;
      while rest != {}
        invariant rest <= clients.Keys
        invariant forall c :: c in clients && clients[c] == user ==> c in rest
        decreases rest
      {
        var c :| c in rest;
        if clients[c] == user {
          return true;
        }
        rest := rest - {c};
      }
      return false;
    }

    /** The locked part of evaluateSuspend: note the absence, freeze or thaw the remaining time. */
    method Reassess(ownerPresent: bool, now: int)
      returns (pauseAutoClose: Option<int>, pauseRemaining: int, resumeDeadline: Option<int>)
      modifies this
      ensures View() == Assess(old(View()), ownerPresent, now)
      ensures pauseAutoClose ==
                if !ownerPresent && Freezes(old(View()), now)
                then Some(old(ownerAbsentSince).GetOr(now) + grace) else None
      ensures pauseAutoClose.Some? ==> pauseRemaining == Remaining(old(operatingDeadline), now)
      ensures resumeDeadline ==
                if ownerPresent && old(operatingPausedRemaining) > 0
                then Some(now + old(operatingPausedRemaining)) else None
    {
      pauseAutoClose, pauseRemaining, resumeDeadline := None, 0, None;
      var pausable := !suspended && !operatingUnlimited && suspendEnabled;
      if ownerPresent {
        ownerAbsentSince := None;
        if operatingPausedRemaining > 0 {
          resumeDeadline := Some(now + operatingPausedRemaining);
          operatingDeadline := resumeDeadline;
          operatingPausedRemaining := 0;
        }
      } else if pausable {
        if ownerAbsentSince.None? {
          ownerAbsentSince := Some(now);
        }
        if operatingPausedRemaining == 0 && operatingDeadline.Some? {
          var remaining := Max(operatingDeadline.value - now, 0);
          if grace <= remaining {
            pauseRemaining := remaining;
            operatingPausedRemaining := pauseRemaining;
            operatingDeadline := None;
            pauseAutoClose := Some(ownerAbsentSince.value + grace);
          }
        }
      }
    }

    /** Add a connection and follow the channel's current grace setting. */
    method Attach(client: Client, serverDefault: int)
      modifies this`clients, this`grace, this`suspendEnabled
      ensures View() == old(View()).(clients := old(clients)[client.conn := client.user],
                                     grace := ResolveGrace(serverDefault, client.graceSeconds))
    {
      clients := clients[client.conn := client.user];
      var resolved := ResolveGrace(serverDefault, client.graceSeconds);
      grace, suspendEnabled := resolved.duration, resolved.enabled;
    }

    /** computeSuspendDeadlineLocked. */
    method ComputeSuspendDeadline(ownerPresent: bool, now: int) returns (closing: Option<int>)
      ensures closing == ClosingTime(View(), ownerPresent, now)
    {
      if suspended || operatingUnlimited {
        return None;
      }
      closing := operatingDeadline;
      if !ownerPresent && suspendEnabled {
        var anchor := ownerAbsentSince.GetOr(now);
        if closing.None? || anchor + grace < closing.value {
          closing := Some(anchor + grace);
        }
      }
    }

    /** What evaluateSuspend does under the lock; an unknown owner is left alone before it is called. */
    method EvaluateLocked(ownerActive: bool, now: int)
      returns (pauseAutoClose: Option<int>, pauseRemaining: int, resumeDeadline: Option<int>, closing: Option<int>)
      modifies this
      ensures var (c, present) := (old(View()), OwnerPresent(old(View()), ownerActive));
              && View() == Assess(c, present, now)
              && closing == ClosingTime(View(), present, now)
              && (pauseAutoClose.Some? ==> pauseRemaining == Remaining(c.deadline, now))
              && pauseAutoClose ==
                   (if !present && Freezes(c, now) then Some(c.absentSince.GetOr(now) + c.grace.duration) else None)
              && resumeDeadline == (if present && c.frozen > 0 then Some(now + c.frozen) else None)
    {
      var ownerPresent := Connected(ownerUserID);
      if !ownerPresent {
        ownerPresent := ownerActive;
      }
      pauseAutoClose, pauseRemaining, resumeDeadline := Reassess(ownerPresent, now);
      closing := ComputeSuspendDeadline(ownerPresent, now);
    }
  }

  class Hub {
    const serverDefault: int
    var channels: map<Slug, LocalChannel>
    var suspendTimers: map<Slug, int>
    var effects: seq<(Slug, Effect)>

    /** Two slugs never share a mirror. */
    ghost predicate Valid()
      reads this
    {
      forall a, b :: a in channels && b in channels && a != b ==> channels[a] != channels[b]
    }

    ghost function At(slug: Slug): Local
      reads this, channels.Values
    {
      Local(if slug in channels then Some(channels[slug].View()) else None,
            if slug in suspendTimers then Some(suspendTimers[slug]) else None)
    }

    ghost function Tagged(slug: Slug, es: seq<Effect>): seq<(Slug, Effect)> {
      seq(|es|, i requires 0 <= i < |es| => (slug, es[i]))
    }

    constructor (grace: int)
      ensures Valid() && channels == map[] && suspendTimers == map[] && effects == [] && serverDefault == grace
    {
      serverDefault, channels, suspendTimers, effects := grace, map[], map[], [];
    }

    method Attempt(slug: Slug, e: Effect)
      modifies this`effects
      ensures effects == old(effects) + Tagged(slug, [e])
    {
      effects := effects + [(slug, e)];
    }

    method PersistPause(slug: Slug, closing: int, remaining: int, pauseOk: bool)
      modifies this`effects
      ensures effects == old(effects) + Tagged(slug, PauseEffects(closing, remaining, pauseOk))
    {
      Attempt(slug, PauseRow);
      if pauseOk {
        Attempt(slug, PublishPaused(closing, WholeSeconds(remaining)));
      }
    }

    method PersistResume(slug: Slug, resumeDeadline: int, reply: ResumeReply)
      modifies this`effects
      ensures effects == old(effects) + Tagged(slug, ResumeEffects(resumeDeadline, reply))
    {
      Attempt(slug, ResumeRow);
      if reply.ResumedAt? {
        Attempt(slug, PublishRestarted(reply.deadline.GetOr(resumeDeadline)));
      }
    }

    /** Arm, move or cancel the timer; presence is rebroadcast exactly when that changed something. */
    method SetSuspendTimer(slug: Slug, deadline: Option<int>) returns (rebroadcast: bool)
      requires Valid()
      modifies this`suspendTimers
      ensures Valid() && At(slug) == old(At(slug)).(timer := deadline)
      ensures forall other :: other != slug ==> At(other) == old(At(other))
      ensures rebroadcast == (old(At(slug)).timer != deadline)
    {
      var had := slug in suspendTimers;
      if deadline.None? {
        suspendTimers := suspendTimers - {slug};
        return had;
      }
      if had && suspendTimers[slug] == deadline.value {
        return false;
      }
      suspendTimers := suspendTimers[slug := deadline.value];
      return true;
    }

    /** The tail of evaluateSuspend: at most one of the two is present. */
    method Persist(slug: Slug, pauseAutoClose: Option<int>, pauseRemaining: int, pauseOk: bool,
                   resumeDeadline: Option<int>, reply: ResumeReply)
      requires pauseAutoClose.None? || resumeDeadline.None?
      modifies this`effects
      ensures effects == old(effects) + Tagged(slug,
                if pauseAutoClose.Some? then PauseEffects(pauseAutoClose.value, pauseRemaining, pauseOk)
                else if resumeDeadline.Some? then ResumeEffects(resumeDeadline.value, reply)
                else [])
    {
      if pauseAutoClose.Some? {
        PersistPause(slug, pauseAutoClose.value, pauseRemaining, pauseOk);
      }
      if resumeDeadline.Some? {
        PersistResume(slug, resumeDeadline.value, reply);
      }
    }

    /** evaluateSuspend, given the presence store's and the database's answers. */
    method EvaluateSuspend(slug: Slug, ownerActive: bool, now: int, pauseOk: bool, reply: ResumeReply)
      requires Valid()
      modifies this`suspendTimers, this`effects, if slug in channels then {channels[slug]} else {}
      ensures Valid() && channels == old(channels)
      ensures At(slug) == Evaluate(old(At(slug)), ownerActive, now, pauseOk, reply).0
      ensures effects == old(effects) + Tagged(slug, Evaluate(old(At(slug)), ownerActive, now, pauseOk, reply).1)
      ensures forall other :: other != slug ==> At(other) == old(At(other))
    {
      if slug !in channels {
        return;
      }
      var ch := channels[slug];
      if ch.ownerUserID == 0 {
        return;
      }
      var pauseAutoClose, pauseRemaining, resumeDeadline, closing := ch.EvaluateLocked(ownerActive, now);
      Persist(slug, pauseAutoClose, pauseRemaining, pauseOk, resumeDeadline, reply);
      var _ := SetSuspendTimer(slug, closing);
    }

    /** setChannelOperating, setChannelPaused and setChannelUnlimited: a bus message, then a re-evaluation. */
    method Deliver(slug: Slug, m: Message, ownerActive: bool, now: int, pauseOk: bool, reply: ResumeReply)
      requires Valid()
      modifies this`suspendTimers, this`effects, if slug in channels then {channels[slug]} else {}
      ensures Valid() && channels == old(channels)
      ensures var before := old(At(slug));
              var received :=
                if before.chan.Some? then before.(chan := Some(Receive(before.chan.value, m))) else before;
              var (after, es) := Evaluate(received, ownerActive, now, pauseOk, reply);
              At(slug) == after && effects == old(effects) + Tagged(slug, es)
      ensures forall other :: other != slug ==> At(other) == old(At(other))
    {
      if slug in channels {
        match m {
          case Suspended => SetChannelOperating(channels[slug], true, None);
          case Resumed => SetChannelOperating(channels[slug], false, None);
          case Operating(deadline) => SetChannelOperating(channels[slug], false, deadline);
          case Restarted(at) => SetChannelOperating(channels[slug], false, Some(at));
          case Paused(secs) => SetChannelPaused(channels[slug], secs * SECOND);
          case Mode(unlimited) => SetChannelUnlimited(channels[slug], unlimited);
        }
      }
      EvaluateSuspend(slug, ownerActive, now, pauseOk, reply);
    }

    static method SetChannelOperating(ch: LocalChannel, suspended: bool, operatingDeadline: Option<int>)
      modifies ch
      ensures ch.View() == SetOperating(old(ch.View()), suspended, operatingDeadline)
    {
      ch.suspended := suspended;
      ch.operatingDeadline := operatingDeadline;
      if operatingDeadline.Some? {
        ch.operatingPausedRemaining, ch.ownerAbsentSince := 0, None;
      }
      if suspended {
        ch.operatingPausedRemaining, ch.ownerAbsentSince := 0, None;
      }
    }

    static method SetChannelPaused(ch: LocalChannel, remaining: int)
      modifies ch
      ensures ch.View() == SetPaused(old(ch.View()), remaining)
    {
      if !ch.suspended && !ch.operatingUnlimited {
        ch.operatingDeadline := None;
        if remaining > 0 {
          ch.operatingPausedRemaining := remaining;
        }
      }
    }

    static method SetChannelUnlimited(ch: LocalChannel, unlimited: bool)
      modifies ch
      ensures ch.View() == SetUnlimited(old(ch.View()), unlimited)
    {
      ch.operatingUnlimited := unlimited;
      if unlimited {
        ch.operatingDeadline := None;
      }
    }

    /** The first client of a channel on this node subscribes to the bus and starts a mirror. */
    method EnsureMirror(slug: Slug, client: Client, subscribeOk: bool) returns (ok: bool)
      requires Valid()
      modifies this`channels
      ensures Valid() && ok == (slug in old(channels) || subscribeOk)
      ensures !ok || slug in old(channels) ==> channels == old(channels)
      ensures ok && slug !in old(channels) ==>
                slug in channels && fresh(channels[slug]) && channels[slug].View() == FreshChan(client)
      ensures forall other :: other != slug ==> At(other) == old(At(other))
    {
      if slug in channels {
        return true;
      }
      if !subscribeOk {
        return false;
      }
      var created := new LocalChannel(client);
      channels := channels[slug := created];
      return true;
    }

    /** Register. `ok` is false when subscribing failed; the evaluation it spawns is a separate call. */
    method Register(slug: Slug, client: Client, subscribeOk: bool) returns (ok: bool)
      requires Valid()
      modifies this, if slug in channels then {channels[slug]} else {}
      ensures Valid()
      ensures At(slug) == Join(old(At(slug)), client, serverDefault, subscribeOk).0
      ensures effects == old(effects) + Tagged(slug, Join(old(At(slug)), client, serverDefault, subscribeOk).1)
      ensures ok <==> At(slug).chan.Some?
      ensures forall other :: other != slug ==> At(other) == old(At(other))
    {
      ForgetStale(slug, client.channelID);
      ok := EnsureMirror(slug, client, subscribeOk);
      if !ok {
        return;
      }
      channels[slug].Attach(client, serverDefault);
      Attempt(slug, MarkActive(client.user));
      TaggedJoin(slug, DropStale(old(At(slug)), client.channelID).1, [MarkActive(client.user)]);
    }

    /** A mirror that still holds the id of a deleted channel of the same slug is discarded. */
    method ForgetStale(slug: Slug, channelID: int)
      requires Valid()
      modifies this
      ensures Valid()
      ensures channels == if slug in old(channels) && old(channels)[slug].channelID != channelID
                          then old(channels) - {slug} else old(channels)
      ensures At(slug) == DropStale(old(At(slug)), channelID).0
      ensures effects == old(effects) + Tagged(slug, DropStale(old(At(slug)), channelID).1)
      ensures forall other :: other != slug ==> At(other) == old(At(other))
    {
      if slug in channels && channels[slug].channelID != channelID {
        channels := channels - {slug};
        suspendTimers := suspendTimers - {slug};
        Attempt(slug, ClearActive);
      }
    }

    /** The last-client branch of Unregister, after the mirror of the channel has been dropped. */
    method LastClientLeft(slug: Slug, ch: LocalChannel, now: int, pauseOk: bool)
      requires Valid() && slug !in channels
      modifies this`suspendTimers, this`effects
      ensures Valid() && At(slug) == Local(None, LastLeave(ch.View(), old(At(slug)).timer, now, pauseOk).0)
      ensures effects == old(effects) + Tagged(slug, LastLeave(ch.View(), old(At(slug)).timer, now, pauseOk).1)
      ensures forall other :: other != slug ==> At(other) == old(At(other))
    {
      if ch.ownerUserID != 0 && !ch.suspended && !ch.operatingUnlimited {
        var remaining := if ch.operatingDeadline.Some? then Max(ch.operatingDeadline.value - now, 0) else 0;
        var alreadyPaused := ch.operatingPausedRemaining > 0;
        var awayTimerActive := ch.suspendEnabled && ch.operatingDeadline.Some? && ch.grace <= remaining;
        if ch.suspendEnabled && (awayTimerActive || alreadyPaused) {
          var anchor := ch.ownerAbsentSince.GetOr(now);
          if awayTimerActive && !alreadyPaused {
            PersistPause(slug, anchor + ch.grace, remaining, pauseOk);
          }
          var _ := SetSuspendTimer(slug, Some(anchor + ch.grace));
        } else if ch.operatingDeadline.Some? {
          var _ := SetSuspendTimer(slug, ch.operatingDeadline);
        }
      }
    }

    /** Take a connection off a mirror, and its user off the presence store unless connected here otherwise. */
    method Detach(slug: Slug, ch: LocalChannel, conn: ConnID, user: UserID)
      modifies this`effects, ch`clients
      ensures ch.clients == old(ch.clients) - {conn}
      ensures effects == old(effects) + Tagged(slug, if HasUser(ch.clients, user) then [] else [RemoveActive(user)])
    {
      ch.clients := ch.clients - {conn};
      var userStillLocal := ch.Connected(user);
      if !userStillLocal {
        Attempt(slug, RemoveActive(user));
      }
    }

    lemma TaggedJoin(slug: Slug, a: seq<Effect>, b: seq<Effect>)
      ensures Tagged(slug, a) + Tagged(slug, b) == Tagged(slug, a + b)
    {
    }

    /** Unregister. When clients remain it reports that an evaluation has been spawned. */
    method Unregister(slug: Slug, conn: ConnID, user: UserID, now: int, pauseOk: bool) returns (spawned: bool)
      requires Valid()
      modifies this`channels, this`suspendTimers, this`effects, if slug in channels then {channels[slug]} else {}
      ensures Valid()
      ensures At(slug) == Leave(old(At(slug)), conn, user, now, pauseOk).0
      ensures effects == old(effects) + Tagged(slug, Leave(old(At(slug)), conn, user, now, pauseOk).1)
      ensures spawned <==> slug in channels
      ensures forall other :: other != slug ==> At(other) == old(At(other))
    {
      if slug !in channels {
        return false;
      }
      var ch := channels[slug];
      Detach(slug, ch, conn, user);
      if ch.clients != map[] {
        return true;
      }
      channels := channels - {slug};
      LastClientLeft(slug, ch, now, pauseOk);
      ghost var c := old(ch.View()).(clients := map[]);
      TaggedJoin(slug, if HasUser(map[], user) then [] else [RemoveActive(user)],
                 LastLeave(c, old(At(slug)).timer, now, pauseOk).1);
      return false;
    }

    /** A fired timer forgets itself, then closes the channel; only the UPDATE that changed the row publishes. */
    method TimerFired(slug: Slug, affected: nat)
      requires Valid()
      modifies this`suspendTimers, this`effects
      ensures Valid() && At(slug) == old(At(slug)).(timer := None)
      ensures effects == old(effects)
                + Tagged(slug, if affected == 0 then [SuspendRow] else [SuspendRow, PublishSuspended])
      ensures forall other :: other != slug ==> At(other) == old(At(other))
    {
      suspendTimers := suspendTimers - {slug};
      Attempt(slug, SuspendRow);
      if affected == 0 {
        return;
      }
      Attempt(slug, PublishSuspended);
    }

    /** DropChannel: forget everything about a deleted channel. */
    method DropChannel(slug: Slug)
      requires Valid()
      modifies this
      ensures Valid() && At(slug) == Local(None, None)
      ensures effects == old(effects) + Tagged(slug, [ClearActive])
      ensures forall other :: other != slug ==> At(other) == old(At(other))
    {
      channels := channels - {slug};
      suspendTimers := suspendTimers - {slug};
      Attempt(slug, ClearActive);
    }
  }
}
