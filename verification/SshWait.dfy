/** Waiting for a freshly installed VM: which address to probe, and how long. */
module SshWait {
  import opened Wrappers
  import Text

  // --- the address ------------------------------------------------------------

  /** Lexicographic order, as `sort.Strings` uses. */
  predicate AtMost(a: string, b: string) {
    a == "" || (b != "" && (a[0] < b[0] || (a[0] == b[0] && AtMost(a[1..], b[1..]))))
  }

  lemma {:induction false} AtMostTransitive(a: string, b: string, c: string)
    requires AtMost(a, b) && AtMost(b, c)
    ensures AtMost(a, c)
  {
    if a != "" && a[0] == b[0] == c[0] {
      AtMostTransitive(a[1..], b[1..], c[1..]);
    }
  }

  lemma {:induction false} AtMostTotal(a: string, b: string)
    ensures AtMost(a, b) || AtMost(b, a)
  {
    if a != "" && b != "" && a[0] == b[0] {
      AtMostTotal(a[1..], b[1..]);
    }
  }

  /** The first difference decides, and a beginning comes before the whole. */
  lemma {:induction false} AtMostMeans(common: string, x: char, a: string, y: char, b: string)
    ensures x < y ==> AtMost(common + ([x] + a), common + ([y] + b)) && !AtMost(common + ([y] + b), common + ([x] + a))
    ensures AtMost(common, common + b)
    decreases |common|
  {
    if common == "" {
      assert common + ([x] + a) == [x] + a && common + ([y] + b) == [y] + b;
    } else {
      AtMostMeans(common[1..], x, a, y, b);
      assert (common + ([x] + a))[1..] == common[1..] + ([x] + a) && (common + ([y] + b))[1..] == common[1..] + ([y] + b);
      assert (common + b)[1..] == common[1..] + b;
    }
  }

  predicate Usable(ips: map<string, string>, slot: string) {
    slot in ips && ips[slot] != ""
  }

  predicate AnyUsable(ips: map<string, string>) {
    exists slot :: slot in ips && Usable(ips, slot)
  }

  const PREFERRED := ["management", "public", "private"]

  /** The first preferred slot that has an address, else the least other slot that has one. */
  method PickFinalizeIP(ips: map<string, string>) returns (ip: string, slot: string)
    ensures !AnyUsable(ips) ==> ip == "" && slot == ""
    ensures AnyUsable(ips) ==> Usable(ips, slot) && ip == ips[slot]
    ensures forall k :: 0 <= k < |PREFERRED| && Usable(ips, PREFERRED[k]) ==> slot in PREFERRED[..k + 1]
    ensures slot !in PREFERRED ==> forall other :: Usable(ips, other) ==> AtMost(slot, other)
    ensures Usable(ips, "management") ==> slot == "management"
    ensures Usable(ips, "public") ==> slot in {"management", "public"}
    ensures Usable(ips, "private") ==> slot in {"management", "public", "private"}
  {
    assert PREFERRED[0] == "management" && PREFERRED[1] == "public" && PREFERRED[2] == "private";
    for k := 0 to |PREFERRED|
      invariant forall j :: 0 <= j < k ==> !Usable(ips, PREFERRED[j])
    {
      if PREFERRED[k] in ips && ips[PREFERRED[k]] != "" {
        return ips[PREFERRED[k]], PREFERRED[k];
      }
    }
    var keys := set slot | slot in ips && ips[slot] != "";
    if keys == {} {
      assert forall other :: Usable(ips, other) ==> other in keys;
      return "", "";
    }
    slot :| slot in keys;
    AtMostTotal(slot, slot);
    var rest := keys - {slot};
    while rest != {}
      invariant slot in keys && rest <= keys
      invariant forall other :: other in keys - rest ==> AtMost(slot, other)
    {
      var candidate :| candidate in rest;
      AtMostTotal(slot, candidate);
      if !AtMost(slot, candidate) {
        forall other | other in keys - rest ensures AtMost(candidate, other) {
          AtMostTransitive(candidate, slot, other);
        }
        slot := candidate;
      }
      AtMostTotal(candidate, candidate);
      rest := rest - {candidate};
    }
    ip := ips[slot];
  }

  // --- the wait -----------------------------------------------------------------

  const SECOND: nat := 1_000_000_000
  const DEFAULT_TIMEOUT: nat := 30 * 60 * SECOND
  const DEFAULT_POLL_INTERVAL: nat := 10 * SECOND
  const DIAL_LIMIT: nat := 5 * SECOND
  const READ_LIMIT: nat := 3 * SECOND

  function Timeout(timeout: int): nat { if timeout <= 0 then DEFAULT_TIMEOUT else timeout }

  function PollInterval(interval: int): (n: nat)
    ensures n > 0
  {
    if interval <= 0 then DEFAULT_POLL_INTERVAL else interval
  }

  /** What the n-th dial meets, and how long it and the read after it take. */
  datatype Probe = Unreachable(dial: nat) | Connected(dial: nat, read: nat, readOk: bool, bytes: string)

  predicate Banner(p: Probe) {
    p.Connected? && p.readOk && |p.bytes| > 0 && Text.HasPrefix(p.bytes, "SSH-")
  }

  function Elapsed(p: Probe): nat { if p.Connected? then p.dial + p.read else p.dial }

  predicate WithinLimits(p: Probe) { p.dial <= DIAL_LIMIT && (p.Connected? ==> p.read <= READ_LIMIT) }

  datatype Verdict = Up | NoAddress | TimedOut | Cancelled

  lemma {:induction false} MultiplesGrow(q: nat, n: nat, interval: nat)
    requires n > q
    ensures n * interval >= q * interval + interval
  {
    if n > q + 1 {
      MultiplesGrow(q, n - 1, interval);
      NextMultiple(n - 1, interval);
    } else {
      NextMultiple(q, interval);
    }
  }

  lemma QuotientBound(n: nat, interval: nat, timeout: nat)
    requires interval > 0 && n * interval <= timeout
    ensures n <= timeout / interval
  {
    var q := timeout / interval;
    assert timeout == q * interval + timeout % interval;
    if n > q {
      MultiplesGrow(q, n, interval);
    }
  }

  lemma NextMultiple(n: nat, interval: nat)
    ensures (n + 1) * interval == n * interval + interval
  {
  }

  /** The time at which dial n is made, when none before it ends the wait. */
  function DialTime(probe: nat -> Probe, pause: nat, start: int, n: nat): int {
    if n == 0 then start else DialTime(probe, pause, start, n - 1) + Elapsed(probe(n - 1)) + pause
  }

  /** The context ends in the pause after dial n. */
  predicate Ends(cancel: nat -> Option<nat>, pause: nat, n: nat) { cancel(n).Some? && cancel(n).value < pause }

  /** Without options: half an hour, a dial every ten seconds. */
  lemma Defaults(n: int)
    ensures Timeout(n) == (if n <= 0 then 1_800 * SECOND else n) && PollInterval(n) == (if n <= 0 then 10 * SECOND else n)
    ensures SECOND == 1_000_000_000 && DIAL_LIMIT == 5 * SECOND && READ_LIMIT == 3 * SECOND
  {
  }

  /** Dial n is made in time and does not end the wait. */
  predicate Fruitless(probe: nat -> Probe, cancel: nat -> Option<nat>, timeout: nat, pause: nat, start: int, n: nat) {
    DialTime(probe, pause, start, n) <= start + timeout && !Banner(probe(n)) && !Ends(cancel, pause, n)
  }

  /** The wait goes on: `dials` dials were made in time and none of them ended it. */
  predicate Polled(probe: nat -> Probe, cancel: nat -> Option<nat>, timeout: nat, pause: nat, start: int, dials: nat) {
    forall n :: 0 <= n < dials ==> Fruitless(probe, cancel, timeout, pause, start, n)
  }

  lemma BannerMeans(p: Probe)
    ensures Banner(p) <==> p.Connected? && p.readOk && "SSH-" <= p.bytes
  {
  }

  /** The last dial read the first banner. */
  predicate EndsUp(probe: nat -> Probe, cancel: nat -> Option<nat>, timeout: nat, pause: nat, start: int, dials: nat, now: int) {
    && dials > 0 && Polled(probe, cancel, timeout, pause, start, dials - 1) && Banner(probe(dials - 1))
    && DialTime(probe, pause, start, dials - 1) <= start + timeout
    && now == DialTime(probe, pause, start, dials - 1) + Elapsed(probe(dials - 1))
  }

  /** The context ended in the pause after the last dial, which read no banner. */
  predicate EndsCancelled(probe: nat -> Probe, cancel: nat -> Option<nat>, timeout: nat, pause: nat, start: int, dials: nat, now: int) {
    && dials > 0 && Polled(probe, cancel, timeout, pause, start, dials - 1) && !Banner(probe(dials - 1)) && Ends(cancel, pause, dials - 1)
    && DialTime(probe, pause, start, dials - 1) <= start + timeout
    && now == DialTime(probe, pause, start, dials - 1) + Elapsed(probe(dials - 1)) + cancel(dials - 1).value
  }

  /** No dial ended the wait, and the time of the next one is past the deadline. */
  predicate EndsLate(probe: nat -> Probe, cancel: nat -> Option<nat>, timeout: nat, pause: nat, start: int, dials: nat, now: int) {
    Polled(probe, cancel, timeout, pause, start, dials) && now == DialTime(probe, pause, start, dials) && now > start + timeout
  }

  /** When dial n is made in time and is the first that reads a banner, and the context has not ended before, the wait ends with
      it and in no other way. */
  lemma FirstBannerEndsIt(probe: nat -> Probe, cancel: nat -> Option<nat>, timeout: nat, pause: nat, start: int, n: nat, dials: nat, now: int)
    requires Polled(probe, cancel, timeout, pause, start, n) && DialTime(probe, pause, start, n) <= start + timeout && Banner(probe(n))
    ensures !EndsCancelled(probe, cancel, timeout, pause, start, dials, now) && !EndsLate(probe, cancel, timeout, pause, start, dials, now)
    ensures EndsUp(probe, cancel, timeout, pause, start, dials, now) ==> dials == n + 1
  {
    assert !Fruitless(probe, cancel, timeout, pause, start, n);
    assert dials < n ==> Fruitless(probe, cancel, timeout, pause, start, dials);
    assert 0 < dials <= n ==> Fruitless(probe, cancel, timeout, pause, start, dials - 1);
  }

  /** At least a pause for each dial has gone by. */
  lemma {:induction false} DialPaced(probe: nat -> Probe, pause: nat, start: int, n: nat)
    ensures DialTime(probe, pause, start, n) >= start + n * pause
  {
    if n > 0 {
      DialPaced(probe, pause, start, n - 1);
      NextMultiple(n - 1, pause);
    }
  }

  /** However the wait ends, so many dials and so much time it takes at most. */
  lemma WaitBounds(probe: nat -> Probe, cancel: nat -> Option<nat>, timeout: nat, pause: nat, start: int, dials: nat, now: int)
    requires pause > 0
    requires EndsUp(probe, cancel, timeout, pause, start, dials, now) || EndsCancelled(probe, cancel, timeout, pause, start, dials, now)
          || EndsLate(probe, cancel, timeout, pause, start, dials, now)
    ensures dials <= timeout / pause + 1
    ensures (forall n :: 0 <= n < dials ==> WithinLimits(probe(n))) ==> now <= start + timeout + DIAL_LIMIT + READ_LIMIT + pause
  {
    var last := dials - 1;
    if EndsLate(probe, cancel, timeout, pause, start, dials, now) { assert Fruitless(probe, cancel, timeout, pause, start, last); }
    DialPaced(probe, pause, start, last);
    QuotientBound(last, pause, timeout);
  }

  /** Poll until a banner is read or the deadline has passed. `cancel(n)` tells whether, and how far
      into the pause after probe n, the caller's context ends. */
  method WaitForSSHUp(skip: bool, ip: string, timeout: int, interval: int,
                      probe: nat -> Probe, cancel: nat -> Option<nat>, start: int)
    returns (verdict: Verdict, dials: nat, now: int)
    ensures skip ==> verdict == Up && dials == 0 && now == start
    ensures !skip && ip == "" ==> verdict == NoAddress && dials == 0 && now == start
    ensures dials <= Timeout(timeout) / PollInterval(interval) + 1
    ensures (forall n :: 0 <= n < dials ==> WithinLimits(probe(n))) ==>
              now <= start + Timeout(timeout) + DIAL_LIMIT + READ_LIMIT + PollInterval(interval)
    ensures verdict == NoAddress <==> !skip && ip == ""
    ensures !skip && verdict == Up ==> EndsUp(probe, cancel, Timeout(timeout), PollInterval(interval), start, dials, now)
    ensures verdict == Cancelled ==> EndsCancelled(probe, cancel, Timeout(timeout), PollInterval(interval), start, dials, now)
    ensures verdict == TimedOut ==> EndsLate(probe, cancel, Timeout(timeout), PollInterval(interval), start, dials, now)
  {
    dials, now := 0, start;
    if skip {
      return Up, dials, now;
    }
    if ip == "" {
      return NoAddress, dials, now;
    }
    var deadline, pause := start + Timeout(timeout), PollInterval(interval);
    while true
      invariant now == DialTime(probe, pause, start, dials) && Polled(probe, cancel, Timeout(timeout), pause, start, dials)
      decreases deadline - now
    {
      if now > deadline {
        WaitBounds(probe, cancel, Timeout(timeout), pause, start, dials, now);
        return TimedOut, dials, now;
      }
      var p := probe(dials);
      dials, now := dials + 1, now + Elapsed(p);
      if Banner(p) {
        WaitBounds(probe, cancel, Timeout(timeout), pause, start, dials, now);
        return Up, dials, now;
      }
      var c := cancel(dials - 1);
      if c.Some? && c.value < pause {
        WaitBounds(probe, cancel, Timeout(timeout), pause, start, dials, now + c.value);
        return Cancelled, dials, now + c.value;
      }
      now := now + pause;
    }
  }
}
