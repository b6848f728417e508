/**
  Bounded redirects to the cluster leader: attempts, applications and configurations.
 */
module Redirect {
  import opened Values

  /** `credentials` stands for everything that is neither address nor transport security. */
  datatype Config = Config(scheme: string, host: string, port: int, tls: bool, credentials: int)

  datatype Address = Address(host: string, port: int, scheme: Option<string>)

  /** How an attempt ends. `address` is the leader a not-leader response names, if any. */
  datatype End = Done | NotLeader(address: Option<string>) | Failure

  /** An attempt, and how many requests of the operation it got applied. */
  datatype Attempt = Attempt(applied: nat, end: End)

  /** What the client meets: its attempts in order, whether a connection opens, and how an address
      reads, if it does. */
  datatype World = World(attempt: nat -> Attempt, connects: nat -> bool, split: string -> Option<Address>)

  datatype Outcome = Returned | NotLeaderRaised | OtherRaised | RedirectRefused | ConnectFailed

  /** The configuration left, how the run ended, how many attempts it made and how many requests were
      applied over all of them. */
  datatype Run = Run(config: Config, outcome: Outcome, attempts: nat, applied: nat)

  const SECURE_SCHEMES: set<string> := {"auras", "auradbs"}
  const INSECURE_SCHEMES: set<string> := {"aura", "aura+tcp", "auradb", "aura+memory", "memory"}
  const MAX_LEADER_REDIRECTS: nat := 10

  /** An operation of `n` requests: each attempt applies a prefix of them, all if it returns, and the
      request that is answered "not leader" is not applied. */
  ghost predicate Operation(w: World, n: nat) {
    forall i :: var a := w.attempt(i);
      match a.end
      case Done => a.applied == n
      case NotLeader(_) => a.applied < n
      case Failure => a.applied <= n
  }

  // ----- redirect targets -----

  predicate Secure(c: Config) {
    c.scheme in SECURE_SCHEMES || c.tls
  }

  /** An address that names an insecure scheme is refused to a secure client. */
  function Resolve(w: World, c: Config, address: string, allowInsecure: bool): Option<Address> {
    var a := w.split(address);
    if a.Some? && !allowInsecure && Secure(c) && a.value.scheme.Some? && a.value.scheme.value in INSECURE_SCHEMES then None
    else a
  }

  function PointedAt(c: Config, a: Address): Config {
    c.(host := a.host, port := a.port)
  }

  // ----- the run as a function -----

  function Follow(w: World, c: Config, left: nat, i: nat): Run
    decreases left
  {
    var a := w.attempt(i);
    match a.end
    case Done => Run(c, Returned, 1, a.applied)
    case Failure => Run(c, OtherRaised, 1, a.applied)
    case NotLeader(address) =>
      if address.None? || left == 0 then Run(c, NotLeaderRaised, 1, a.applied)
      else
        var target := Resolve(w, c, address.value, false);
        if target.None? then Run(c, RedirectRefused, 1, a.applied)
        else if !w.connects(i) then Run(PointedAt(c, target.value), ConnectFailed, 1, a.applied)
        else
          var rest := Follow(w, PointedAt(c, target.value), left - 1, i + 1);
          rest.(attempts := rest.attempts + 1, applied := rest.applied + a.applied)
  }

  // ----- what it guarantees -----

  /** At most one attempt more than redirects, and all but the last were answered "not leader". */
  lemma {:induction false} BoundedAttempts(w: World, c: Config, left: nat, i: nat)
    ensures var r := Follow(w, c, left, i);
      && 1 <= r.attempts <= left + 1
      && (forall k :: i <= k < i + r.attempts - 1 ==> w.attempt(k).end.NotLeader?)
      && (r.outcome.Returned? <==> w.attempt(i + r.attempts - 1).end.Done?)
      && (r.outcome.OtherRaised? <==> w.attempt(i + r.attempts - 1).end.Failure?)
    decreases left
  {
    var a := w.attempt(i);
    if a.end.NotLeader? && a.end.address.Some? && left > 0 {
      var target := Resolve(w, c, a.end.address.value, false);
      if target.Some? && w.connects(i) {
        BoundedAttempts(w, PointedAt(c, target.value), left - 1, i + 1);
      }
    }
  }

  /** A single-request write is applied exactly once if the run returns, never if it ends with a
      not-leader response or a redirect that is refused or does not connect, and at most once else. */
  lemma {:induction false} SingleWritesApplyAtMostOnce(w: World, c: Config, left: nat, i: nat)
    requires Operation(w, 1)
    ensures var r := Follow(w, c, left, i);
      match r.outcome
      case Returned => r.applied == 1
      case OtherRaised => r.applied <= 1
      case _ => r.applied == 0
    decreases left
  {
    var a := w.attempt(i);
    if a.end.NotLeader? && a.end.address.Some? && left > 0 {
      var target := Resolve(w, c, a.end.address.value, false);
      if target.Some? && w.connects(i) {
        SingleWritesApplyAtMostOnce(w, PointedAt(c, target.value), left - 1, i + 1);
      }
    }
  }

  /** An operation of several requests that returns was applied exactly as often as it has requests
      if and only if no attempt before the last had applied any: a redirect in mid-operation repeats
      what was applied before it. */
  lemma {:induction false} RepeatedExactlyWhenPartlyApplied(w: World, c: Config, left: nat, i: nat, n: nat)
    requires Operation(w, n)
    ensures var r := Follow(w, c, left, i);
      r.outcome.Returned? ==>
        && r.applied >= n
        && (r.applied == n <==> forall k :: i <= k < i + r.attempts - 1 ==> w.attempt(k).applied == 0)
    decreases left
  {
    var a := w.attempt(i);
    if a.end.NotLeader? && a.end.address.Some? && left > 0 {
      var target := Resolve(w, c, a.end.address.value, false);
      if target.Some? && w.connects(i) {
        BoundedAttempts(w, PointedAt(c, target.value), left - 1, i + 1);
        RepeatedExactlyWhenPartlyApplied(w, PointedAt(c, target.value), left - 1, i + 1, n);
        var rest := Follow(w, PointedAt(c, target.value), left - 1, i + 1);
        if rest.outcome.Returned? {
          assert i + 1 + rest.attempts - 1 == i + (rest.attempts + 1) - 1;
        }
      }
    }
  }

  /** The first attempt applies all requests but one and is sent elsewhere, where all are applied. */
  function OneRedirect(n: nat, i: nat): World
    requires n > 0
  {
    World(k => if k == i then Attempt(n - 1, NotLeader(Some("leader:7171"))) else Attempt(n, Done),
          _ => true, _ => Some(Address("leader", 7171, None)))
  }

  /** An operation is safe to redirect, applied exactly once by every run that returns, if and only if
      it is at most one request or may not be redirected at all. */
  lemma RedirectsRepeatExactly(c: Config, left: nat, i: nat, n: nat)
    ensures
      (forall w: World :: Operation(w, n) && Follow(w, c, left, i).outcome.Returned? ==> Follow(w, c, left, i).applied == n)
      <==> n <= 1 || left == 0
  {
    if n <= 1 || left == 0 {
      forall w: World | Operation(w, n) && Follow(w, c, left, i).outcome.Returned?
        ensures Follow(w, c, left, i).applied == n
      {
        var a := w.attempt(i);
        if n == 1 {
          SingleWritesApplyAtMostOnce(w, c, left, i);
        }
      }
    } else {
      var w := OneRedirect(n, i);
      assert w.attempt(i) == Attempt(n - 1, NotLeader(Some("leader:7171"))) && w.attempt(i + 1) == Attempt(n, Done);
      var moved := PointedAt(c, Address("leader", 7171, None));
      assert Follow(w, moved, left - 1, i + 1) == Run(moved, Returned, 1, n);
      assert Follow(w, c, left, i) == Run(moved, Returned, 2, n + (n - 1));
    }
  }

  // ----- every configuration on the way -----

  /** The configurations of the run, its first included; an address is taken over before the connection
      to it is tried. */
  function Reached(w: World, c: Config, left: nat, i: nat): (cs: seq<Config>)
    ensures cs != [] && cs[0] == c
    decreases left
  {
    var a := w.attempt(i);
    if !a.end.NotLeader? || a.end.address.None? || left == 0 then [c]
    else
      var target := Resolve(w, c, a.end.address.value, false);
      if target.None? then [c]
      else if !w.connects(i) then [c, PointedAt(c, target.value)]
      else [c] + Reached(w, PointedAt(c, target.value), left - 1, i + 1)
  }

  /** The run ends with the last of them, and makes an attempt under each, except under the last when
      connecting to it failed. */
  lemma {:induction false} ReachedByTheRun(w: World, c: Config, left: nat, i: nat)
    ensures var r := Follow(w, c, left, i);
      var cs := Reached(w, c, left, i);
      r.config == cs[|cs| - 1] && |cs| == r.attempts + if r.outcome.ConnectFailed? then 1 else 0
    decreases left
  {
    var a := w.attempt(i);
    if a.end.NotLeader? && a.end.address.Some? && left > 0 {
      var target := Resolve(w, c, a.end.address.value, false);
      if target.Some? && w.connects(i) {
        ReachedByTheRun(w, PointedAt(c, target.value), left - 1, i + 1);
      }
    }
  }

  /** Whatever the responses, every configuration on the way differs from the first only in host and
      port: scheme, TLS and credentials are the client's own. */
  lemma {:induction false} OnlyTheAddressChanges(w: World, c: Config, left: nat, i: nat)
    ensures forall x :: x in Reached(w, c, left, i) ==>
      x == c.(host := x.host, port := x.port) && Secure(x) == Secure(c)
    decreases left
  {
    var a := w.attempt(i);
    if a.end.NotLeader? && a.end.address.Some? && left > 0 {
      var target := Resolve(w, c, a.end.address.value, false);
      if target.Some? && w.connects(i) {
        OnlyTheAddressChanges(w, PointedAt(c, target.value), left - 1, i + 1);
      }
    }
  }

  /** The address was named by the attempt, reads as the host and port taken over, and names no insecure
      scheme. */
  ghost predicate FollowedTo(w: World, k: nat, x: Config) {
    && w.attempt(k).end.NotLeader? && w.attempt(k).end.address.Some?
    && var a := w.split(w.attempt(k).end.address.value);
       && a.Some? && x.host == a.value.host && x.port == a.value.port
       && (a.value.scheme.Some? ==> a.value.scheme.value !in INSECURE_SCHEMES)
  }

  lemma {:induction false} FollowedSecurely(w: World, c: Config, left: nat, i: nat, k: nat)
    requires Secure(c) && 0 < k < |Reached(w, c, left, i)|
    ensures FollowedTo(w, i + k - 1, Reached(w, c, left, i)[k])
    decreases left
  {
    if k > 1 {
      var target := Resolve(w, c, w.attempt(i).end.address.value, false);
      FollowedSecurely(w, PointedAt(c, target.value), left - 1, i + 1, k - 1);
    }
  }

  /** A secure client takes over no address that names an insecure scheme, connected or not: every
      configuration after the first comes from a response, and its address is a secure one. */
  lemma SecureClientsNeverDowngrade(w: World, c: Config, left: nat, i: nat)
    requires Secure(c)
    ensures var cs := Reached(w, c, left, i);
      forall k :: 0 < k < |cs| ==> FollowedTo(w, i + k - 1, cs[k])
  {
    forall k | 0 < k < |Reached(w, c, left, i)| ensures FollowedTo(w, i + k - 1, Reached(w, c, left, i)[k]) {
      FollowedSecurely(w, c, left, i, k);
    }
  }

  /** What one attempt makes of the rest of the run. */
  lemma OneAttempt(w: World, c: Config, left: nat, i: nat)
    ensures
      var a := w.attempt(i);
      var r, cs := Follow(w, c, left, i), Reached(w, c, left, i);
      match a.end
      case Done => r == Run(c, Returned, 1, a.applied) && cs == [c]
      case Failure => r == Run(c, OtherRaised, 1, a.applied) && cs == [c]
      case NotLeader(address) =>
        if address.None? || left == 0 then r == Run(c, NotLeaderRaised, 1, a.applied) && cs == [c]
        else
          var target := Resolve(w, c, address.value, false);
          && (target.None? ==> r == Run(c, RedirectRefused, 1, a.applied) && cs == [c])
          && (target.Some? && !w.connects(i) ==>
                && r == Run(PointedAt(c, target.value), ConnectFailed, 1, a.applied)
                && cs == [c, PointedAt(c, target.value)])
          && (target.Some? && w.connects(i) ==>
                var moved := PointedAt(c, target.value);
                var rest := Follow(w, moved, left - 1, i + 1);
                && r == rest.(attempts := rest.attempts + 1, applied := rest.applied + a.applied)
                && cs[1..] == [moved] + Reached(w, moved, left - 1, i + 1)[1..])
  {
  }

  // ----- the client -----

  class Client {
    var config: Config
    var attempts: nat
    var applied: nat
    /** The configurations so far, the present one last. */
    ghost var history: seq<Config>

    constructor (config: Config)
      ensures this.config == config && attempts == 0 && applied == 0 && history == [config]
    {
      this.config, attempts, applied, history := config, 0, 0, [config];
    }

    /** One attempt of the operation. */
    method Operate(w: World) returns (end: End)
      modifies this`attempts, this`applied
      ensures attempts == old(attempts) + 1
      ensures end == w.attempt(old(attempts)).end && applied == old(applied) + w.attempt(old(attempts)).applied
    {
      var a := w.attempt(attempts);
      attempts, applied := attempts + 1, applied + a.applied;
      end := a.end;
    }

    /** Points this client at the address; the configuration is changed before the connection opens. */
    method ReconnectBackendTo(w: World, address: string) returns (failure: Option<Outcome>)
      requires attempts > 0
      modifies this`config, this`history
      ensures
        var target := Resolve(w, old(config), address, false);
        if target.None? then failure == Some(RedirectRefused) && config == old(config) && history == old(history)
        else
          && config == PointedAt(old(config), target.value) && history == old(history) + [config]
          && failure == if w.connects(attempts - 1) then None else Some(ConnectFailed)
    {
      var target := Resolve(w, config, address, false);
      if target.None? {
        return Some(RedirectRefused);
      }
      config := PointedAt(config, target.value);
      history := history + [config];
      failure := if w.connects(attempts - 1) then None else Some(ConnectFailed);
    }

    method RunWithRedirects(w: World, maxRedirects: nat) returns (outcome: Outcome)
      requires maxRedirects <= MAX_LEADER_REDIRECTS
      modifies this
      ensures
        var r := Follow(w, old(config), maxRedirects, old(attempts));
        && outcome == r.outcome && config == r.config
        && attempts == old(attempts) + r.attempts && applied == old(applied) + r.applied
      ensures history == old(history) + Reached(w, old(config), maxRedirects, old(attempts))[1..]
    {
      hide Follow, Reached, Resolve;
      ghost var whole := Follow(w, config, maxRedirects, attempts);
      var redirectsLeft := maxRedirects;
      while true
        invariant var r := Follow(w, config, redirectsLeft, attempts);
          && r.outcome == whole.outcome && r.config == whole.config
          && attempts + r.attempts == old(attempts) + whole.attempts
          && applied + r.applied == old(applied) + whole.applied
        invariant old(history) + Reached(w, old(config), maxRedirects, old(attempts))[1..] ==
          history + Reached(w, config, redirectsLeft, attempts)[1..]
        decreases redirectsLeft
      {
        OneAttempt(w, config, redirectsLeft, attempts);
        var end := Operate(w);
        match end {
          case Done => return Returned;
          case Failure => return OtherRaised;
          case NotLeader(address) =>
            if address.None? || redirectsLeft == 0 {
              return NotLeaderRaised;
            }
            redirectsLeft := redirectsLeft - 1;
            var failure := ReconnectBackendTo(w, address.value);
            if failure.Some? {
              return failure.value;
            }
        }
      }
    }
  }

  // ----- which targets are refused -----

  /** A redirect is refused if and only if its address does not read, or names a plain scheme to a client that
      has TLS on or a secure scheme and was not told to allow it; otherwise it goes where the address says. */
  lemma ResolveExactly(w: World, c: Config, address: string, allowInsecure: bool)
    ensures
      var a := w.split(address);
      var secure := c.tls || c.scheme == "auras" || c.scheme == "auradbs";
      var plain := a.Some? && a.value.scheme.Some? &&
        (a.value.scheme.value == "aura" || a.value.scheme.value == "aura+tcp" || a.value.scheme.value == "auradb"
         || a.value.scheme.value == "aura+memory" || a.value.scheme.value == "memory");
      Resolve(w, c, address, allowInsecure) == if a.None? || (plain && secure && !allowInsecure) then None else a
  {
  }

  /** Following an address changes the host and the port, and nothing else. */
  lemma PointedAtIs(c: Config, a: Address)
    ensures
      var moved := PointedAt(c, a);
      && moved.host == a.host && moved.port == a.port
      && moved.scheme == c.scheme && moved.tls == c.tls && moved.credentials == c.credentials
    ensures MAX_LEADER_REDIRECTS == 10
  {
  }
}
