/** The monotonic identifier generator. The clock reading and the random bytes of a call are inputs. */
module Ids {
  import opened Common
  import opened Ulid

  const MILLIS_LIMIT: nat := 0x1_0000_0000_0000
  const RANDOM_LIMIT: nat := 0x1_0000_0000_0000_0000_0000

  datatype IdError = BadPrefix | BadTimestamp | RandomExhausted | TimestampOverflow

  /** The module's globals. */
  datatype Generator = Generator(lastMillis: int, lastRandom: int, explicitRandom: map<int, int>)

  /** One call of `new_id`, with the clock reading or the explicit timestamp. */
  datatype Call =
    | Ordinary(prefix: string, millis: int, random: nat)
    | Explicit(prefix: string, millis: int, random: nat)

  const FRESH := Generator(-1, -1, map[])

  predicate IsAlphanumeric(c: char) {
    '0' <= c <= '9' || 'A' <= c <= 'Z' || 'a' <= c <= 'z'
  }

  predicate GoodPrefix(prefix: string) {
    (exists i :: 0 <= i < |prefix| && prefix[i] != '-')
    && forall i :: 0 <= i < |prefix| ==> prefix[i] == '-' || IsAlphanumeric(prefix[i])
  }

  /** Six bytes of milliseconds, then ten random bytes, as one number. */
  function Number(millis: nat, random: nat): nat {
    millis * RANDOM_LIMIT + random
  }

  /** The timestamp and random part that an ordinary call goes on to hold. */
  function NextHeld(g: Generator, clock: int, random: nat): (int, int) {
    var millis := if clock < g.lastMillis then g.lastMillis else clock;
    if millis != g.lastMillis then (millis, random)
    else if g.lastRandom + 1 >= RANDOM_LIMIT then (millis + 1, random)
    else (millis, g.lastRandom + 1)
  }

  function NextExplicit(g: Generator, millis: int, random: nat): int {
    if millis in g.explicitRandom then g.explicitRandom[millis] + 1 else random
  }

  ghost predicate Valid(g: Generator) {
    && ((g.lastMillis == -1 && g.lastRandom == -1) || (g.lastMillis >= 0 && 0 <= g.lastRandom < RANDOM_LIMIT))
    && forall t :: t in g.explicitRandom ==> 0 <= t < MILLIS_LIMIT && 0 <= g.explicitRandom[t] < RANDOM_LIMIT
  }

  /** One call: the new globals and the number that is encoded, or the error raised. */
  function Generate(g: Generator, call: Call): (r: (Generator, Result<nat, IdError>))
    requires Valid(g) && call.random < RANDOM_LIMIT
    ensures Valid(r.0) && (r.1.Ok? ==> r.1.value < LIMIT)
  {
    if !GoodPrefix(call.prefix) then (g, Err(BadPrefix))
    else if !(0 <= call.millis < MILLIS_LIMIT) then (g, Err(BadTimestamp))
    else if call.Explicit? then
      var random := NextExplicit(g, call.millis, call.random);
      if random >= RANDOM_LIMIT then (g, Err(RandomExhausted))
      else
        (g.(explicitRandom := g.explicitRandom[call.millis := random]), Ok(Number(call.millis, random)))
    else
      var held := NextHeld(g, call.millis, call.random);
      (g.(lastMillis := held.0, lastRandom := held.1),
       if held.0 < MILLIS_LIMIT then Ok(Number(held.0, held.1)) else Err(TimestampOverflow))
  }

  function Identifier(prefix: string, number: nat): string {
    prefix + "_" + Canonical(number)
  }

  /** The text is the prefix, an underscore and 26 characters that decode to the number. */
  ghost predicate Spells(text: string, prefix: string, number: int) {
    && |text| == |prefix| + 27 && text[..|prefix|] == prefix && text[|prefix|] == '_'
    && number >= 0 && Decode(text[|prefix| + 1..]) == Some(number)
  }

  lemma IdentifierSpells(prefix: string, number: nat)
    requires number < LIMIT
    ensures Spells(Identifier(prefix, number), prefix, number)
  {
    DecodeUndoesEncode(number);
    EncodingIsWellFormed(number);
    assert Identifier(prefix, number)[|prefix| + 1..] == Canonical(number);
  }

  /** Nothing but hyphens, or something that is neither a letter nor a digit nor a hyphen. */
  ghost predicate IsMalformed(prefix: string) {
    (forall i :: 0 <= i < |prefix| ==> prefix[i] == '-')
    || exists i :: 0 <= i < |prefix| && prefix[i] != '-' && !('0' <= prefix[i] <= '9')
                   && !('A' <= prefix[i] <= 'Z') && !('a' <= prefix[i] <= 'z')
  }

  lemma GoodPrefixIff(prefix: string)
    ensures GoodPrefix(prefix) <==> !IsMalformed(prefix)
  {
    if GoodPrefix(prefix) {
      var i :| 0 <= i < |prefix| && prefix[i] != '-';
    }
  }

  /** What a call answers, in terms of its arguments and of what the generator holds afterwards. */
  ghost predicate Answers(h: Generator, call: Call, r: Result<string, IdError>) {
    && (r == Err(BadPrefix) <==> IsMalformed(call.prefix))
    && (r.Ok? && call.Explicit? ==>
          call.millis in h.explicitRandom
          && Spells(r.value, call.prefix, call.millis * 0x1_0000_0000_0000_0000_0000 + h.explicitRandom[call.millis]))
    && (r.Ok? && call.Ordinary? ==>
          Spells(r.value, call.prefix, h.lastMillis * 0x1_0000_0000_0000_0000_0000 + h.lastRandom))
  }

  /** One step, with its number written out. */
  function NewText(g: Generator, call: Call): (Generator, Result<string, IdError>)
    requires Valid(g) && call.random < RANDOM_LIMIT
  {
    var step := Generate(g, call);
    (step.0, if step.1.Ok? then Ok(Identifier(call.prefix, step.1.value)) else Err(step.1.error))
  }

  lemma StepAnswers(g: Generator, call: Call)
    requires Valid(g) && call.random < RANDOM_LIMIT
    ensures Answers(NewText(g, call).0, call, NewText(g, call).1)
  {
    GoodPrefixIff(call.prefix);
    if Generate(g, call).1.Ok? { IdentifierSpells(call.prefix, Generate(g, call).1.value); }
  }

  function CallOf(prefix: string, timestamp: Option<int>, clock: int, random: nat): Call {
    if timestamp.Some? then Explicit(prefix, timestamp.value, random) else Ordinary(prefix, clock, random)
  }

  class UlidGenerator {
    var lastMillis: int
    var lastRandom: int
    var explicitRandom: map<int, int>

    ghost function Contents(): Generator
      reads this
    {
      Generator(lastMillis, lastRandom, explicitRandom)
    }

    constructor ()
      ensures Contents() == FRESH && Valid(Contents())
    {
      lastMillis, lastRandom, explicitRandom := -1, -1, map[];
    }

    /** `new_id`. */
    method NewId(prefix: string, timestamp: Option<int>, clock: int, random: nat)
      returns (r: Result<string, IdError>)
      requires Valid(Contents()) && random < RANDOM_LIMIT
      modifies this
      ensures Valid(Contents())
      ensures (Contents(), r) == NewText(old(Contents()), CallOf(prefix, timestamp, clock, random))
      ensures Answers(Contents(), CallOf(prefix, timestamp, clock, random), r)
    {
      StepAnswers(Contents(), CallOf(prefix, timestamp, clock, random));
      if !GoodPrefix(prefix) { return Err(BadPrefix); }
      var millis := if timestamp.Some? then timestamp.value else clock;
      if !(0 <= millis < MILLIS_LIMIT) { return Err(BadTimestamp); }
      if timestamp.Some? {
        r := NewExplicit(prefix, millis, random);
      } else {
        r := NewOrdinary(prefix, millis, random);
      }
    }

    /** An explicit timestamp is kept exact; within one the random part counts up. */
    method NewExplicit(prefix: string, millis: int, random: nat) returns (r: Result<string, IdError>)
      requires Valid(Contents()) && random < RANDOM_LIMIT && GoodPrefix(prefix) && 0 <= millis < MILLIS_LIMIT
      modifies this`explicitRandom
      ensures (Contents(), r) == NewText(old(Contents()), Explicit(prefix, millis, random))
    {
      var part := if millis in explicitRandom then explicitRandom[millis] + 1 else random;
      if part >= RANDOM_LIMIT { return Err(RandomExhausted); }
      explicitRandom := explicitRandom[millis := part];
      var code := EncodeUlid(Number(millis, part));
      r := Ok(prefix + "_" + code);
    }

    /** An ordinary call keeps the state it computed even when its timestamp no longer fits. */
    method NewOrdinary(prefix: string, clock: int, random: nat) returns (r: Result<string, IdError>)
      requires Valid(Contents()) && random < RANDOM_LIMIT && GoodPrefix(prefix) && 0 <= clock < MILLIS_LIMIT
      modifies this`lastMillis, this`lastRandom
      ensures (Contents(), r) == NewText(old(Contents()), Ordinary(prefix, clock, random))
    {
      var millis, part := clock, random;
      if millis < lastMillis { millis := lastMillis; }
      if millis == lastMillis {
        part := lastRandom + 1;
        if part >= RANDOM_LIMIT {
          millis := millis + 1;
          part := random;
        }
      }
      lastMillis := millis;
      lastRandom := part;
      if millis >= MILLIS_LIMIT { return Err(TimestampOverflow); }
      var code := EncodeUlid(Number(millis, part));
      r := Ok(prefix + "_" + code);
    }
  }

  // ------------------------------------------------------------------------- whole runs

  ghost predicate AreCalls(calls: seq<Call>) {
    forall i :: 0 <= i < |calls| ==> calls[i].random < RANDOM_LIMIT
  }

  /** The globals after a sequence of calls. */
  function After(g: Generator, calls: seq<Call>): (r: Generator)
    requires Valid(g) && AreCalls(calls)
    ensures Valid(r)
  {
    if calls == [] then g
    else Generate(After(g, calls[..|calls| - 1]), calls[|calls| - 1]).0
  }

  /** What the `i`-th call of a sequence generates. */
  function Generated(g: Generator, calls: seq<Call>, i: nat): Result<nat, IdError>
    requires Valid(g) && AreCalls(calls) && i < |calls|
  {
    Generate(After(g, calls[..i]), calls[i]).1
  }

  /** The last number an ordinary call held, in order of calls. */
  function Held(g: Generator): int {
    g.lastMillis * RANDOM_LIMIT + g.lastRandom
  }

  function LastExplicit(g: Generator, millis: int): int {
    if millis in g.explicitRandom then g.explicitRandom[millis] else -1
  }

  /** Every ordinary call that gets past its checks holds a greater number than before, whatever the
      clock reads; no other call touches it. */
  lemma OrdinaryAdvances(g: Generator, call: Call)
    requires Valid(g) && call.random < RANDOM_LIMIT
    ensures var (next, r) := Generate(g, call);
            if call.Ordinary? && r != Err(BadPrefix) && r != Err(BadTimestamp) then
              Held(next) > Held(g) && (r.Ok? ==> r.value == Held(next))
            else
              Held(next) == Held(g)
  {
  }

  lemma ExplicitAdvances(g: Generator, call: Call, t: int)
    requires Valid(g) && call.random < RANDOM_LIMIT
    ensures var (next, r) := Generate(g, call);
            LastExplicit(next, t) >= LastExplicit(g, t)
            && (call.Explicit? && r.Ok? && call.millis == t ==>
                  LastExplicit(next, t) > LastExplicit(g, t) && r.value == Number(t, LastExplicit(next, t)))
  {
  }

  lemma AfterNext(g: Generator, calls: seq<Call>, i: nat)
    requires Valid(g) && AreCalls(calls) && i < |calls|
    ensures AreCalls(calls[..i]) && AreCalls(calls[..i + 1])
    ensures After(g, calls[..i + 1]) == Generate(After(g, calls[..i]), calls[i]).0
  {
    assert calls[..i + 1][..i] == calls[..i];
  }

  lemma {:induction false} NothingGoesBack(g: Generator, calls: seq<Call>, i: nat, j: nat, t: int)
    requires Valid(g) && AreCalls(calls) && i <= j <= |calls|
    ensures Held(After(g, calls[..i])) <= Held(After(g, calls[..j]))
    ensures LastExplicit(After(g, calls[..i]), t) <= LastExplicit(After(g, calls[..j]), t)
    decreases j - i
  {
    if i < j {
      NothingGoesBack(g, calls, i, j - 1, t);
      AfterNext(g, calls, j - 1);
      OrdinaryAdvances(After(g, calls[..j - 1]), calls[j - 1]);
      ExplicitAdvances(After(g, calls[..j - 1]), calls[j - 1], t);
    }
  }

  lemma OrdinaryNumbersIncrease(g: Generator, calls: seq<Call>, i: nat, j: nat)
    requires Valid(g) && AreCalls(calls) && i < j < |calls|
    requires calls[i].Ordinary? && calls[j].Ordinary? && Generated(g, calls, i).Ok? && Generated(g, calls, j).Ok?
    ensures Generated(g, calls, i).value < Generated(g, calls, j).value < LIMIT
  {
    AfterNext(g, calls, i);
    OrdinaryAdvances(After(g, calls[..i]), calls[i]);
    NothingGoesBack(g, calls, i + 1, j, 0);
    OrdinaryAdvances(After(g, calls[..j]), calls[j]);
  }

  /** Among explicit calls the later timestamp is greater, and of one timestamp the later call. */
  lemma ExplicitNumbersIncrease(g: Generator, calls: seq<Call>, i: nat, j: nat)
    requires Valid(g) && AreCalls(calls) && i < j < |calls|
    requires calls[i].Explicit? && calls[j].Explicit? && Generated(g, calls, i).Ok? && Generated(g, calls, j).Ok?
    ensures Generated(g, calls, i).value < Generated(g, calls, j).value <==> calls[i].millis <= calls[j].millis
    ensures Generated(g, calls, i).value != Generated(g, calls, j).value
  {
    var t := calls[i].millis;
    AfterNext(g, calls, i);
    ExplicitAdvances(After(g, calls[..i]), calls[i], t);
    NothingGoesBack(g, calls, i + 1, j, t);
    ExplicitAdvances(After(g, calls[..j]), calls[j], t);
  }

  lemma PrefixKeepsOrder(prefix: string, x: nat, y: nat)
    requires x < LIMIT && y < LIMIT
    ensures x < y ==> StringBefore(Identifier(prefix, x), Identifier(prefix, y))
    ensures Identifier(prefix, x) == Identifier(prefix, y) <==> x == y
  {
    EncodingKeepsOrder(x, y);
    var a, b := Identifier(prefix, x), Identifier(prefix, y);
    var n := |prefix| + 1;
    assert a[n..] == Canonical(x) && b[n..] == Canonical(y) && a[..n] == b[..n];
    if x < y {
      var k :| StringLessAt(Canonical(x), Canonical(y), k);
      assert a[..n + k] == a[..n] + Canonical(x)[..k] && b[..n + k] == b[..n] + Canonical(y)[..k];
      assert StringLessAt(a, b, n + k);
    }
  }

  /** Identifiers of one prefix generated in the ordinary way increase as strings, whatever the clock
      does and whatever explicit calls come between. */
  lemma OrdinaryIdentifiersIncrease(g: Generator, calls: seq<Call>, i: nat, j: nat)
    requires Valid(g) && AreCalls(calls) && i < j < |calls|
    requires calls[i].Ordinary? && calls[j].Ordinary? && calls[i].prefix == calls[j].prefix
    requires Generated(g, calls, i).Ok? && Generated(g, calls, j).Ok?
    ensures StringBefore(Identifier(calls[i].prefix, Generated(g, calls, i).value),
                         Identifier(calls[j].prefix, Generated(g, calls, j).value))
  {
    OrdinaryNumbersIncrease(g, calls, i, j);
    PrefixKeepsOrder(calls[i].prefix, Generated(g, calls, i).value, Generated(g, calls, j).value);
  }

  // --------------------------------------------------------------------- running out

  /** An ordinary call fails for want of a timestamp exactly when the held one no longer fits, or is the
      last that fits and has no random part left. */
  lemma OverflowIff(g: Generator, call: Call)
    requires Valid(g) && call.random < RANDOM_LIMIT
    requires call.Ordinary? && GoodPrefix(call.prefix) && 0 <= call.millis < MILLIS_LIMIT
    ensures Generate(g, call).1.Err? <==>
            g.lastMillis >= MILLIS_LIMIT
            || (g.lastMillis == MILLIS_LIMIT - 1 && g.lastRandom == RANDOM_LIMIT - 1)
    ensures Generate(g, call).1.Err? ==> Generate(g, call) == (Generate(g, call).0, Err(TimestampOverflow))
                                         && Generate(g, call).0.lastMillis >= MILLIS_LIMIT
  {
  }

  /** Once that has happened every ordinary call fails, whatever the clock reads from then on. */
  lemma {:induction false} OverflowIsForever(g: Generator, calls: seq<Call>, i: nat)
    requires Valid(g) && g.lastMillis >= MILLIS_LIMIT && AreCalls(calls) && i < |calls|
    ensures calls[i].Ordinary? ==> Generated(g, calls, i).Err?
  {
    assert calls[..0] == [];
    NothingGoesBack(g, calls, 0, i, 0);
    var held := After(g, calls[..i]);
    assert held.lastMillis >= MILLIS_LIMIT;
  }

  /** It can happen: two calls in the last millisecond, the first with the last random part. */
  lemma OverflowHappens()
    ensures var last := MILLIS_LIMIT - 1;
            var calls := [Ordinary("evt", last, RANDOM_LIMIT - 1), Ordinary("evt", last, 0)];
            AreCalls(calls) && Generated(FRESH, calls, 1) == Err(TimestampOverflow)
            && After(FRESH, calls).lastMillis == MILLIS_LIMIT
  {
    var last := MILLIS_LIMIT - 1;
    var calls := [Ordinary("evt", last, RANDOM_LIMIT - 1), Ordinary("evt", last, 0)];
    assert "evt"[0] == 'e';
    assert calls[..1] == [calls[0]] && calls == calls[..1] + [calls[1]];
    assert calls[..1][..0] == [] && After(FRESH, []) == FRESH;
  }

  /** An explicit timestamp, too, stays exhausted: the failed call leaves its random part as it was. */
  lemma ExhaustedTimestampStays(g: Generator, call: Call, again: Call)
    requires Valid(g) && call.random < RANDOM_LIMIT && again.random < RANDOM_LIMIT
    requires call.Explicit? && Generate(g, call).1 == Err(RandomExhausted)
    requires again.Explicit? && again.millis == call.millis && GoodPrefix(again.prefix)
    ensures Generate(g, call).0 == g && Generate(g, again).1 == Err(RandomExhausted)
  {
  }

  // --------------------------------------------------------------------- event identifiers

  /** `^evt_[0-7][0-9A-HJKMNP-TV-Z]{25}$`. */
  ghost predicate IsEventId(s: string) {
    |s| == 30 && s[..4] == "evt_" && IsUlid(s[4..])
  }

  lemma GeneratedEventIdsMatch(g: Generator, call: Call)
    requires Valid(g) && call.random < RANDOM_LIMIT && call.prefix == "evt" && Generate(g, call).1.Ok?
    ensures IsEventId(Identifier(call.prefix, Generate(g, call).1.value))
  {
    var n := Generate(g, call).1.value;
    EncodingIsWellFormed(n);
    var s := Identifier("evt", n);
    assert s[..4] == "evt" + "_" && s[4..] == Canonical(n);
  }

  // ------------------------------------------------------- repeats across the two modes

  /** The call gets past the checks on its prefix and its timestamp. */
  predicate Admitted(call: Call) {
    GoodPrefix(call.prefix) && 0 <= call.millis < MILLIS_LIMIT
  }

  /** The random part of the first explicit call at `t`. */
  function FirstExplicit(calls: seq<Call>, t: int): Option<int> {
    if calls == [] then None
    else
      var earlier := FirstExplicit(calls[..|calls| - 1], t);
      var last := calls[|calls| - 1];
      if earlier.None? && last.Explicit? && Admitted(last) && last.millis == t then Some(last.random) else earlier
  }

  /** The random parts an ordinary call first and last held at the millisecond `t`. */
  function FirstHeld(calls: seq<Call>, t: int): Option<int>
    requires AreCalls(calls)
  {
    if calls == [] then None
    else
      var earlier := FirstHeld(calls[..|calls| - 1], t);
      if earlier.None? && HoldsNext(calls, t) then Some(After(FRESH, calls).lastRandom) else earlier
  }

  function LastHeld(calls: seq<Call>, t: int): Option<int>
    requires AreCalls(calls)
  {
    if calls == [] then None
    else if HoldsNext(calls, t) then Some(After(FRESH, calls).lastRandom)
    else LastHeld(calls[..|calls| - 1], t)
  }

  /** The last call is an ordinary one that came to hold the millisecond `t`. */
  predicate HoldsNext(calls: seq<Call>, t: int)
    requires AreCalls(calls) && calls != []
  {
    var last := calls[|calls| - 1];
    last.Ordinary? && Admitted(last) && After(FRESH, calls).lastMillis == t
  }

  predicate Between(first: Option<int>, n: int, last: Option<int>) {
    first.Some? && last.Some? && first.value <= n <= last.value
  }

  /** Some call of this mode generated `(t, n)`. */
  ghost predicate WasGenerated(calls: seq<Call>, explicit: bool, t: nat, n: nat)
    requires AreCalls(calls)
  {
    exists i :: 0 <= i < |calls| && Generates(calls, i, explicit, t, n)
  }

  ghost predicate Generates(calls: seq<Call>, i: nat, explicit: bool, t: nat, n: nat)
    requires AreCalls(calls) && i < |calls|
  {
    calls[i].Explicit? == explicit && Generated(FRESH, calls, i) == Ok(Number(t, n))
  }

  lemma GeneratedSnoc(calls: seq<Call>, call: Call, explicit: bool, t: nat, n: nat)
    requires AreCalls(calls) && call.random < RANDOM_LIMIT
    ensures AreCalls(calls + [call])
    ensures After(FRESH, calls + [call]) == Generate(After(FRESH, calls), call).0
    ensures WasGenerated(calls + [call], explicit, t, n) <==>
            WasGenerated(calls, explicit, t, n)
            || (call.Explicit? == explicit && Generate(After(FRESH, calls), call).1 == Ok(Number(t, n)))
  {
    var longer := calls + [call];
    assert longer[..|calls|] == calls;
    forall i | 0 <= i < |calls| ensures Generates(longer, i, explicit, t, n) <==> Generates(calls, i, explicit, t, n) {
      assert longer[..i] == calls[..i];
    }
    assert Generates(longer, |calls|, explicit, t, n) <==>
           (call.Explicit? == explicit && Generate(After(FRESH, calls), call).1 == Ok(Number(t, n)));
  }

  /** The explicit calls at one timestamp generated exactly the numbers from the first to the latest. */
  lemma {:induction false} ExplicitRange(calls: seq<Call>, t: nat, n: nat)
    requires AreCalls(calls) && n < RANDOM_LIMIT
    ensures var held := After(FRESH, calls).explicitRandom;
            && (t in held <==> FirstExplicit(calls, t).Some?)
            && (t in held ==> FirstExplicit(calls, t).value <= held[t])
            && (WasGenerated(calls, true, t, n) <==> t in held && FirstExplicit(calls, t).value <= n <= held[t])
  {
    if calls != [] {
      var earlier, call := calls[..|calls| - 1], calls[|calls| - 1];
      assert calls == earlier + [call];
      ExplicitRange(earlier, t, n);
      GeneratedSnoc(earlier, call, true, t, n);
      ExplicitStep(After(FRESH, earlier), call, t, n);
    }
  }

  lemma ExplicitStep(g: Generator, call: Call, t: nat, n: nat)
    requires Valid(g) && call.random < RANDOM_LIMIT && n < RANDOM_LIMIT
    ensures var (next, r) := Generate(g, call);
            if call.Explicit? && r.Ok? && call.millis == t then
              next.explicitRandom == g.explicitRandom[t := NextExplicit(g, t, call.random)]
              && (r == Ok(Number(t, n)) <==> n == NextExplicit(g, t, call.random))
            else
              (t in next.explicitRandom <==> t in g.explicitRandom)
              && (t in g.explicitRandom ==> next.explicitRandom[t] == g.explicitRandom[t])
              && (call.Explicit? ==> r != Ok(Number(t, n)))
  {
  }

  /** Ordinary calls hold each millisecond once, in one stretch: what they generated there are exactly the
      numbers from the first held to the last. */
  lemma {:induction false} HeldRange(calls: seq<Call>, t: nat, n: nat)
    requires AreCalls(calls) && n < RANDOM_LIMIT
    ensures var g := After(FRESH, calls);
            && (FirstHeld(calls, t).Some? <==> LastHeld(calls, t).Some?)
            && (FirstHeld(calls, t).Some? ==> FirstHeld(calls, t).value <= LastHeld(calls, t).value && t <= g.lastMillis)
            && (t == g.lastMillis ==> LastHeld(calls, t) == Some(g.lastRandom))
            && (WasGenerated(calls, false, t, n) <==>
                  t < MILLIS_LIMIT && Between(FirstHeld(calls, t), n, LastHeld(calls, t)))
  {
    if calls != [] {
      var earlier, call := calls[..|calls| - 1], calls[|calls| - 1];
      assert calls == earlier + [call];
      HeldRange(earlier, t, n);
      GeneratedSnoc(earlier, call, false, t, n);
      HeldStep(After(FRESH, earlier), call, t, n);
    }
  }

  lemma HeldStep(g: Generator, call: Call, t: nat, n: nat)
    requires Valid(g) && call.random < RANDOM_LIMIT && n < RANDOM_LIMIT
    ensures var (next, r) := Generate(g, call);
            if call.Ordinary? && Admitted(call) then
              && g.lastMillis <= next.lastMillis
              && (next.lastMillis == g.lastMillis ==> next.lastRandom == g.lastRandom + 1)
              && (r == Ok(Number(t, n)) <==> t == next.lastMillis < MILLIS_LIMIT && n == next.lastRandom)
            else
              next.lastMillis == g.lastMillis && next.lastRandom == g.lastRandom
              && (call.Ordinary? ==> r.Err?)
  {
  }

  /** What the other mode has already generated covers the number that the next call is about to generate. */
  predicate Covered(calls: seq<Call>, call: Call)
    requires AreCalls(calls)
  {
    var g := After(FRESH, calls);
    if call.Explicit? then
      Between(FirstHeld(calls, call.millis), NextExplicit(g, call.millis, call.random), LastHeld(calls, call.millis))
    else
      var (m, r) := NextHeld(g, call.millis, call.random);
      m in g.explicitRandom && Between(FirstExplicit(calls, m), r, Some(g.explicitRandom[m]))
  }

  lemma ParityOfModes(calls: seq<Call>, call: Call, i: nat)
    requires AreCalls(calls) && call.random < RANDOM_LIMIT && i < |calls|
    requires Generate(After(FRESH, calls), call).1.Ok?
    requires Generated(FRESH, calls, i) == Generate(After(FRESH, calls), call).1
    ensures calls[i].Explicit? != call.Explicit?
  {
    var longer := calls + [call];
    assert longer[..i] == calls[..i] && longer[..|calls|] == calls;
    assert Generated(FRESH, longer, i) == Generated(FRESH, longer, |calls|);
    if calls[i].Explicit? && call.Explicit? {
      ExplicitNumbersIncrease(FRESH, longer, i, |calls|);
    } else if calls[i].Ordinary? && call.Ordinary? {
      OrdinaryNumbersIncrease(FRESH, longer, i, |calls|);
    }
  }

  /** A call repeats a number generated before it exactly when the other mode's numbers at its millisecond,
      from the first to the latest, cover the one it is about to generate. */
  lemma RepeatsIff(calls: seq<Call>, call: Call)
    requires AreCalls(calls) && call.random < RANDOM_LIMIT && Generate(After(FRESH, calls), call).1.Ok?
    ensures (exists i :: 0 <= i < |calls| && Generated(FRESH, calls, i) == Generate(After(FRESH, calls), call).1)
            <==> Covered(calls, call)
  {
    var g := After(FRESH, calls);
    var (t, n) := if call.Explicit? then (call.millis, NextExplicit(g, call.millis, call.random))
                  else NextHeld(g, call.millis, call.random);
    var number := Generate(g, call).1;
    assert number == Ok(Number(t, n)) && n < RANDOM_LIMIT && t < MILLIS_LIMIT;
    if call.Explicit? { HeldRange(calls, t, n); } else { ExplicitRange(calls, t, n); }
    assert WasGenerated(calls, !call.Explicit?, t, n) <==> Covered(calls, call);
    if i :| 0 <= i < |calls| && Generated(FRESH, calls, i) == number {
      ParityOfModes(calls, call, i);
      assert Generates(calls, i, !call.Explicit?, t, n);
    }
  }

  /** No repeat at all: every pair of numbers generated in the run differs. */
  ghost predicate AllDiffer(calls: seq<Call>)
    requires AreCalls(calls)
  {
    forall i, j :: 0 <= i < j < |calls| ==> DifferAt(calls, i, j)
  }

  ghost predicate DifferAt(calls: seq<Call>, i: nat, j: nat)
    requires AreCalls(calls) && i < j < |calls|
  {
    Generated(FRESH, calls, j).Ok? ==> Generated(FRESH, calls, i) != Generated(FRESH, calls, j)
  }

  /** A whole run generates no number twice exactly when no call of it is covered by those before it. */
  lemma RunIsUniqueIff(calls: seq<Call>)
    requires AreCalls(calls)
    ensures AllDiffer(calls) <==>
            forall j :: 0 <= j < |calls| && Generated(FRESH, calls, j).Ok? ==> !Covered(calls[..j], calls[j])
  {
    forall j | 0 <= j < |calls| && Generated(FRESH, calls, j).Ok?
      ensures Covered(calls[..j], calls[j]) <==> exists i :: 0 <= i < j && !DifferAt(calls, i, j)
    {
      RepeatsIff(calls[..j], calls[j]);
      forall i | 0 <= i < j ensures Generated(FRESH, calls[..j], i) == Generated(FRESH, calls, i) {
        assert calls[..j][..i] == calls[..i];
      }
      if Covered(calls[..j], calls[j]) {
        var i :| 0 <= i < j && Generated(FRESH, calls[..j], i) == Generated(FRESH, calls, j);
        assert !DifferAt(calls, i, j);
      }
    }
  }

  /** The millisecond a call's number is filed under. */
  function MillisOf(number: nat): nat {
    number / RANDOM_LIMIT
  }

  lemma GeneratedMillis(g: Generator, call: Call)
    requires Valid(g) && call.random < RANDOM_LIMIT && Generate(g, call).1.Ok?
    ensures call.Explicit? ==> MillisOf(Generate(g, call).1.value) == call.millis
    ensures call.Ordinary? ==> MillisOf(Generate(g, call).1.value) == Generate(g, call).0.lastMillis >= call.millis
  {
  }

  /** Explicit timestamps that no ordinary call holds never clash with it. */
  lemma DisjointTimestampsNeverClash(calls: seq<Call>, i: nat, j: nat)
    requires AreCalls(calls) && i < |calls| && j < |calls| && calls[i].Explicit? && calls[j].Ordinary?
    requires Generated(FRESH, calls, i).Ok? && Generated(FRESH, calls, j).Ok?
    requires calls[i].millis != After(FRESH, calls[..j + 1]).lastMillis
    ensures Generated(FRESH, calls, i).value != Generated(FRESH, calls, j).value
  {
    AfterNext(FRESH, calls, j);
    GeneratedMillis(After(FRESH, calls[..i]), calls[i]);
    GeneratedMillis(After(FRESH, calls[..j]), calls[j]);
  }

  /** In particular a run whose explicit timestamps all lie before every clock reading repeats nothing. */
  lemma HistoricalTimestampsAreSafe(calls: seq<Call>)
    requires AreCalls(calls)
    requires forall i, j :: 0 <= i < |calls| && 0 <= j < |calls| && calls[i].Explicit? && calls[j].Ordinary?
                            ==> calls[i].millis < calls[j].millis
    ensures AllDiffer(calls)
  {
    forall i, j | 0 <= i < j < |calls| ensures DifferAt(calls, i, j) {
      if Generated(FRESH, calls, i).Ok? && Generated(FRESH, calls, j).Ok? {
        AfterNext(FRESH, calls, i);
        AfterNext(FRESH, calls, j);
        GeneratedMillis(After(FRESH, calls[..i]), calls[i]);
        GeneratedMillis(After(FRESH, calls[..j]), calls[j]);
        if calls[i].Explicit? && calls[j].Explicit? {
          ExplicitNumbersIncrease(FRESH, calls, i, j);
        } else if calls[i].Ordinary? && calls[j].Ordinary? {
          OrdinaryNumbersIncrease(FRESH, calls, i, j);
        }
      }
    }
  }

  /** Identifiers are equal exactly when their prefixes and their numbers are. */
  lemma SameIdentifierIff(p: string, x: nat, q: string, y: nat)
    requires x < LIMIT && y < LIMIT
    ensures Identifier(p, x) == Identifier(q, y) <==> p == q && x == y
  {
    var a, b := Identifier(p, x), Identifier(q, y);
    if a == b {
      assert |p| == |q|;
      assert a[..|p|] == p && b[..|q|] == q;
      PrefixKeepsOrder(p, x, y);
    }
  }

  /** Only chance keeps the two ways of generating apart: they do not see each other's state. */
  lemma OrdinaryAndExplicitCanCoincide()
    ensures var calls := [Ordinary("evt", 5, 7), Explicit("evt", 5, 7)];
            AreCalls(calls) && Generated(FRESH, calls, 0) == Generated(FRESH, calls, 1) == Ok(Number(5, 7))
  {
    var calls := [Ordinary("evt", 5, 7), Explicit("evt", 5, 7)];
    assert calls[..0] == [] && calls[..1] == [calls[0]] && calls[..1][..0] == [];
    assert GoodPrefix("evt") by { assert "evt"[0] != '-'; }
    var once := Generate(FRESH, calls[0]).0;
    assert After(FRESH, calls[..0]) == FRESH;
    AfterNext(FRESH, calls, 0);
  }
}
