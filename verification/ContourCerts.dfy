/**
 Renewing the certificates of Contour and Envoy (pkg/cluster/contour_certs.go): two secrets, signed by one new
 CA, are written one after the other, and either write may fail. Times are in any unit.
 */
module ContourCerts {
  import opened Prelude

  /** The secret of Contour holds the CA certificate; `ca` identifies the CA. */
  datatype Contour = Contour(ca: nat, caExpiry: int, expiry: int)

  datatype Envoy = Envoy(ca: nat, expiry: int)

  /** `issued` counts the CAs generated so far; `loaded` is the CA whose certificates Envoy was last
      restarted for. */
  datatype State = State(contour: Option<Contour>, envoy: Option<Envoy>, issued: nat, loaded: nat)

  datatype Call = GetContour | GetEnvoy | Parse | Generate | GetContourAgain | UpdateContour | GetEnvoyAgain | UpdateEnvoy
                | RestartEnvoy

  /** What the clock shows when each of the three expiries is checked and when new certificates are made. */
  datatype Clock = Clock(ca: int, contour: int, envoy: int, issue: int)

  datatype Config = Config(ttl: int, lifetime: int)

  datatype Pass = Pass(clock: Clock, faults: set<Call>)

  predicate ShouldRotate(c: Contour, e: Envoy, clock: Clock, ttl: int) {
    c.caExpiry - clock.ca <= ttl || c.expiry - clock.contour <= ttl || e.expiry - clock.envoy <= ttl
  }

  /** Both secrets come from one CA. */
  predicate Matched(s: State) {
    s.contour.Some? && s.envoy.Some? && s.contour.value.ca == s.envoy.value.ca
  }

  function Rotated(s: State, p: Pass, config: Config): State {
    if GetContour in p.faults || GetEnvoy in p.faults || Parse in p.faults || s.contour == None || s.envoy == None then s
    else if !ShouldRotate(s.contour.value, s.envoy.value, p.clock, config.ttl) then s
    else Updated(s, p, config)
  }

  /** Three certificates with one expiry, signed by a CA never used before. */
  function Updated(s: State, p: Pass, config: Config): State {
    var expiry := p.clock.issue + config.lifetime;
    if Generate in p.faults then s
    else
      var t := s.(issued := s.issued + 1);
      if GetContourAgain in p.faults || UpdateContour in p.faults then t
      else
        var u := t.(contour := Some(Contour(s.issued, expiry, expiry)));
        if GetEnvoyAgain in p.faults || UpdateEnvoy in p.faults then u
        else
          var w := u.(envoy := Some(Envoy(s.issued, expiry)));
          if RestartEnvoy in p.faults then w else w.(loaded := s.issued)
  }

  class Secrets {
    var contour: Option<Contour>
    var envoy: Option<Envoy>
    var issued: nat
    var loaded: nat

    function Now(): State
      reads this
    {
      State(contour, envoy, issued, loaded)
    }

    method ReadContourCerts(faults: set<Call>) returns (ok: bool, certs: Option<(Contour, Envoy)>)
      ensures ok <==> GetContour !in faults && (contour.Some? ==> GetEnvoy !in faults && (envoy.Some? ==> Parse !in faults))
      ensures ok && contour.Some? && envoy.Some? ==> certs == Some((contour.value, envoy.value))
      ensures !ok || contour == None || envoy == None ==> certs == None
    {
      if GetContour in faults {
        return false, None;
      }
      if contour == None {
        return true, None;
      }
      if GetEnvoy in faults {
        return false, None;
      }
      if envoy == None {
        return true, None;
      }
      if Parse in faults {
        return false, None;
      }
      return true, Some((contour.value, envoy.value));
    }

    method UpdateContourCerts(p: Pass, config: Config) returns (ok: bool)
      requires contour.Some? && envoy.Some?
      modifies this
      ensures ok <==> p.faults !! {Generate, GetContourAgain, UpdateContour, GetEnvoyAgain, UpdateEnvoy}
      ensures ok ==> Now() == Updated(old(Now()), p, config).(loaded := old(loaded))
      ensures !ok ==> Now() == Updated(old(Now()), p, config)
    {
      if Generate in p.faults {
        return false;
      }
      var ca, expiry := issued, p.clock.issue + config.lifetime;
      issued := issued + 1;
      if GetContourAgain in p.faults || UpdateContour in p.faults {
        return false;
      }
      contour := Some(Contour(ca, expiry, expiry));
      if GetEnvoyAgain in p.faults || UpdateEnvoy in p.faults {
        return false;
      }
      envoy := Some(Envoy(ca, expiry));
      return true;
    }

    method RotateContourCerts(p: Pass, config: Config) returns (ok: bool)
      modifies this
      ensures Now() == Rotated(old(Now()), p, config)
      ensures p.faults == {} ==> ok
      ensures ok ==> Now() == old(Now()) || (Matched(Now()) && loaded == envoy.value.ca)
      // as long as all three certificates are valid for longer than the margin nothing is done
      ensures old(contour).Some? && old(envoy).Some? && old(contour).value.caExpiry > p.clock.ca + config.ttl &&
              old(contour).value.expiry > p.clock.contour + config.ttl && old(envoy).value.expiry > p.clock.envoy + config.ttl ==>
        Now() == old(Now())
      // and when one is not, a pass without failures writes both secrets anew from one new CA
      ensures old(contour).Some? && old(envoy).Some? && p.faults == {} &&
              (old(contour).value.caExpiry <= p.clock.ca + config.ttl || old(contour).value.expiry <= p.clock.contour + config.ttl
               || old(envoy).value.expiry <= p.clock.envoy + config.ttl) ==>
        && contour == Some(Contour(old(issued), p.clock.issue + config.lifetime, p.clock.issue + config.lifetime))
        && envoy == Some(Envoy(old(issued), p.clock.issue + config.lifetime))
        && issued == old(issued) + 1 && loaded == old(issued)
      // Envoy's secret is never written before Contour's
      ensures envoy != old(envoy) ==> contour.Some? && contour.value.ca == old(issued)
    {
      var read, certs := ReadContourCerts(p.faults);
      if !read {
        return false;
      }
      if certs == None {
        return true;
      }
      if !ShouldRotate(certs.value.0, certs.value.1, p.clock, config.ttl) {
        return true;
      }
      ghost var before := Now();
      var updated := UpdateContourCerts(p, config);
      if !updated {
        return false;
      }
      if RestartEnvoy in p.faults {
        return false;
      }
      loaded := envoy.value.ca;
      return true;
    }
  }

  // ---------- runs ----------

  function After(s: State, passes: seq<Pass>, config: Config): State {
    if passes == [] then s
    else Rotated(After(s, passes[..|passes| - 1], config), passes[|passes| - 1], config)
  }

  /** The clock never goes back, within a pass and from one to the next. */
  predicate Forward(c: Clock) {
    c.ca <= c.contour <= c.envoy <= c.issue
  }

  predicate Ordered(passes: seq<Pass>) {
    && (forall i :: 0 <= i < |passes| ==> Forward(passes[i].clock))
    && (forall i, j :: 0 <= i < j < |passes| ==> passes[i].clock.issue <= passes[j].clock.ca)
  }

  predicate Later(passes: seq<Pass>, clock: Clock) {
    Forward(clock) && forall i :: 0 <= i < |passes| ==> passes[i].clock.issue <= clock.ca
  }

  /** Two secrets from one CA, whose certificates may expire at different times. */
  predicate Initial(s: State) {
    Matched(s) && s.contour.value.ca < s.issued
  }

  /** Envoy's certificate is not the last to become due. */
  predicate EnvoyFirst(s: State) {
    s.contour.Some? && s.envoy.Some? && s.envoy.value.expiry <= s.contour.value.caExpiry
    && s.envoy.value.expiry <= s.contour.value.expiry
  }

  /** After these passes the certificates match, or the next check at any time rotates them. */
  ghost predicate HealsAfter(s: State, passes: seq<Pass>, config: Config) {
    var t := After(s, passes, config);
    Matched(t) || (t.contour.Some? && t.envoy.Some?
                   && forall clock :: Later(passes, clock) ==> ShouldRotate(t.contour.value, t.envoy.value, clock, config.ttl))
  }

  ghost predicate SelfHealing(s: State, config: Config) {
    forall passes :: Ordered(passes) ==> HealsAfter(s, passes, config)
  }

  /** Either the pair is matched with Envoy not last, or Envoy's old certificate was due at some pass. */
  predicate Invariant(s: State, passes: seq<Pass>, config: Config) {
    && s.contour.Some? && s.envoy.Some? && s.contour.value.ca < s.issued && s.envoy.value.ca < s.issued
    && if Matched(s) then EnvoyFirst(s) else EnvoyWasDue(s.envoy.value, passes, config)
  }

  predicate EnvoyWasDue(e: Envoy, passes: seq<Pass>, config: Config) {
    exists i :: 0 <= i < |passes| && e.expiry - passes[i].clock.envoy <= config.ttl
  }

  lemma {:induction false} RunInvariant(s: State, passes: seq<Pass>, config: Config)
    requires Initial(s) && EnvoyFirst(s) && Ordered(passes)
    ensures Invariant(After(s, passes, config), passes, config)
  {
    if passes != [] {
      var front, last := passes[..|passes| - 1], passes[|passes| - 1];
      RunInvariant(s, front, config);
      PassKeepsInvariant(After(s, front, config), front, last, config);
      assert passes == front + [last];
    }
  }

  lemma PassKeepsInvariant(s: State, front: seq<Pass>, last: Pass, config: Config)
    requires Invariant(s, front, config) && Forward(last.clock)
    requires forall i :: 0 <= i < |front| ==> front[i].clock.issue <= last.clock.ca
    ensures Invariant(Rotated(s, last, config), front + [last], config)
  {
    var passes, t := front + [last], Rotated(s, last, config);
    if !Matched(t) {
      if Matched(s) {
        assert passes[|front|] == last;
      } else {
        var i :| 0 <= i < |front| && s.envoy.value.expiry - front[i].clock.envoy <= config.ttl;
        assert passes[i] == front[i];
      }
    }
  }

  lemma DueStaysDue(s: State, passes: seq<Pass>, config: Config)
    requires Ordered(passes) && Invariant(After(s, passes, config), passes, config)
    ensures HealsAfter(s, passes, config)
  {
    var t := After(s, passes, config);
    if !Matched(t) {
      var i :| 0 <= i < |passes| && t.envoy.value.expiry - passes[i].clock.envoy <= config.ttl;
      assert Forward(passes[i].clock);
    }
  }

  /** The pass that fails between the two secrets, at the first moment Contour's side is due. */
  function Breaking(s: State, config: Config): Pass
    requires s.contour.Some?
  {
    var due := if s.contour.value.caExpiry <= s.contour.value.expiry then s.contour.value.caExpiry else s.contour.value.expiry;
    var now := due - config.ttl;
    Pass(Clock(now, now, now, now), {UpdateEnvoy})
  }

  lemma BreakingBreaks(s: State, config: Config)
    requires Initial(s) && !EnvoyFirst(s) && config.ttl < config.lifetime
    ensures Ordered([Breaking(s, config)]) && !HealsAfter(s, [Breaking(s, config)], config)
  {
    var p := Breaking(s, config);
    assert [p][..0] == [];
    assert After(s, [p], config) == Rotated(s, p, config);
    var t := Rotated(s, p, config);
    assert !Matched(t);
    assert Later([p], p.clock) && !ShouldRotate(t.contour.value, t.envoy.value, p.clock, config.ttl);
  }

  /** Exactly which pairs heal after any failures: with new certificates that are not due at once, those whose
      Envoy certificate does not expire after the CA or after Contour's certificate. Secrets that were issued
      together, with one expiry, are such a pair. */
  lemma SelfHealingIffEnvoyFirst(s: State, config: Config)
    requires Initial(s) && config.ttl < config.lifetime
    ensures SelfHealing(s, config) <==> EnvoyFirst(s)
  {
    if EnvoyFirst(s) {
      forall passes | Ordered(passes) ensures HealsAfter(s, passes, config) {
        RunInvariant(s, passes, config);
        DueStaysDue(s, passes, config);
      }
    } else {
      BreakingBreaks(s, config);
    }
  }

  /** From secrets issued together, the next pass whose calls go through restores a matching pair, after any
      passes that failed anywhere. */
  lemma NextGoodPassMatches(s: State, passes: seq<Pass>, config: Config, good: Pass)
    requires Initial(s) && s.contour.value.caExpiry == s.contour.value.expiry == s.envoy.value.expiry
    requires Ordered(passes) && Later(passes, good.clock) && good.faults <= {RestartEnvoy}
    ensures Matched(Rotated(After(s, passes, config), good, config))
  {
    RunInvariant(s, passes, config);
    DueStaysDue(s, passes, config);
  }

  // ---------- the restart ----------

  /** A certificate is due when this pass checks it. */
  predicate DueAt(s: State, p: Pass, config: Config) {
    s.contour.Some? && s.envoy.Some? && ShouldRotate(s.contour.value, s.envoy.value, p.clock, config.ttl)
  }

  /** The pass renews both secrets. */
  predicate Renews(s: State, p: Pass, config: Config) {
    && DueAt(s, p, config)
    && p.faults !! {GetContour, GetEnvoy, Parse, Generate, GetContourAgain, UpdateContour, GetEnvoyAgain, UpdateEnvoy}
  }

  predicate Restarts(s: State, p: Pass, config: Config) {
    Renews(s, p, config) && RestartEnvoy !in p.faults
  }

  /** Envoy was restarted for the certificates in its secret. */
  predicate UpToDate(s: State) {
    s.envoy.Some? && s.loaded == s.envoy.value.ca
  }

  /** Until a certificate is due nothing changes at all, whatever fails: no secret, and not what Envoy loaded. */
  lemma {:induction false} NothingUntilDue(s: State, passes: seq<Pass>, config: Config)
    requires forall k :: 0 <= k < |passes| ==> !DueAt(s, passes[k], config)
    ensures After(s, passes, config) == s
  {
    if passes != [] {
      NothingUntilDue(s, passes[..|passes| - 1], config);
    }
  }

  /** No certificate has been signed by a CA still to come. */
  predicate Numbered(s: State) {
    s.contour.Some? && s.envoy.Some? && s.envoy.value.ca < s.issued && s.loaded < s.issued
  }

  lemma PassRestarts(s: State, p: Pass, config: Config)
    requires Numbered(s)
    ensures var t := Rotated(s, p, config);
            && Numbered(t)
            && (Renews(s, p, config) ==> (UpToDate(t) <==> Restarts(s, p, config)))
            && (!Renews(s, p, config) ==> t.loaded == s.loaded && t.envoy == s.envoy)
  {
  }

  /** Pass `k` of the run restarts Envoy with new certificates, and no later pass renews them again. */
  ghost predicate RestartedLast(s: State, passes: seq<Pass>, config: Config, k: nat) {
    && k < |passes| && Restarts(After(s, passes[..k], config), passes[k], config)
    && forall j :: k < j < |passes| ==> !Renews(After(s, passes[..j], config), passes[j], config)
  }

  lemma RestartedLastBefore(s: State, passes: seq<Pass>, config: Config, k: nat)
    requires passes != [] && k < |passes| - 1
    ensures RestartedLast(s, passes, config, k)
       <==> RestartedLast(s, passes[..|passes| - 1], config, k)
            && !Renews(After(s, passes[..|passes| - 1], config), passes[|passes| - 1], config)
  {
    var front := passes[..|passes| - 1];
    forall j | 0 <= j < |front| ensures front[..j] == passes[..j] && front[j] == passes[j] {
    }
  }

  /** A failed restart is made up for only by a later renewal: Envoy has the certificates of its secret after a
      run, with any failures, if and only if some pass of the run was due, renewed both secrets and restarted
      Envoy, and no pass after it renewed them again. */
  lemma {:induction false} RestartIsNotRetriedIff(s: State, passes: seq<Pass>, config: Config)
    requires Numbered(s) && !UpToDate(s)
    ensures Numbered(After(s, passes, config))
    ensures UpToDate(After(s, passes, config)) <==> exists k: nat :: RestartedLast(s, passes, config, k)
  {
    if passes != [] {
      var n := |passes| - 1;
      var front, last := passes[..n], passes[n];
      RestartIsNotRetriedIff(s, front, config);
      var m := After(s, front, config);
      PassRestarts(m, last, config);
      if Restarts(m, last, config) {
        assert RestartedLast(s, passes, config, n);
      }
      forall k: nat | k < n
        ensures RestartedLast(s, passes, config, k) <==> RestartedLast(s, front, config, k) && !Renews(m, last, config)
      {
        RestartedLastBefore(s, passes, config, k);
      }
      assert RestartedLast(s, passes, config, n) ==> Restarts(m, last, config);
    }
  }

  /** A pass whose only failure is the restart leaves Envoy behind. */
  lemma FailedRestartLeavesBehind(s: State, p: Pass, config: Config)
    requires Numbered(s) && DueAt(s, p, config) && p.faults == {RestartEnvoy}
    ensures var t := Rotated(s, p, config); Numbered(t) && Matched(t) && !UpToDate(t)
  {
  }
}
