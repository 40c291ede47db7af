// Token accounting: what the hook adds up per run, what the bridge drains, and
// what the client shows.
module Usage {
  import opened Prelude

  const U64_LIMIT: nat := 0x1_0000_0000_0000_0000

  type RunId = nat

  type U32 = n: nat | n < 0x1_0000_0000

  datatype Tokens = Tokens(input: nat, output: nat, cacheRead: nat)

  datatype Field = Input | Output | CacheRead

  function Get(t: Tokens, f: Field): nat
  {
    match f
    case Input => t.input
    case Output => t.output
    case CacheRead => t.cacheRead
  }

  const NO_TOKENS: Tokens := Tokens(0, 0, 0)

  // `+=` on u64, which wraps when overflow checks are off.
  function AddWrapping(a: nat, b: nat): nat
  {
    (a + b) % U64_LIMIT
  }

  function AddTokens(a: Tokens, b: Tokens): Tokens
  {
    Tokens(AddWrapping(a.input, b.input), AddWrapping(a.output, b.output), AddWrapping(a.cacheRead, b.cacheRead))
  }

  type Registry = map<RunId, Tokens>

  // A model call of some run, or the bridge draining a run.
  datatype Event = Call(run: RunId, subject: string, input: U32, output: U32, cacheRead: U32) | Take(run: RunId)

  predicate IsTuiSubject(subject: string)
  {
    StartsWith(subject, "tui:")
  }

  function Entry(reg: Registry, run: RunId): Tokens
  {
    if run in reg then reg[run] else NO_TOKENS
  }

  function AfterCall(reg: Registry, run: RunId, subject: string, used: Tokens): Registry
  {
    if IsTuiSubject(subject) then reg[run := AddTokens(Entry(reg, run), used)] else reg
  }

  class UsageRelay {
    var reg: Registry

    constructor ()
      ensures reg == map[]
    {
      reg := map[];
    }

    method AfterLlm(run: RunId, subject: string, input: U32, output: U32, cacheRead: U32)
      modifies this
      ensures reg == AfterCall(old(reg), run, subject, Tokens(input, output, cacheRead))
    {
      if IsTuiSubject(subject) {
        if run !in reg {
          reg := reg[run := NO_TOKENS];
        }
        reg := reg[run := AddTokens(reg[run], Tokens(input, output, cacheRead))];
      }
    }

    method Take(run: RunId) returns (usage: Option<Tokens>)
      modifies this
      ensures reg == old(reg) - {run}
      ensures usage == if run in old(reg) then Some(old(reg)[run]) else None
    {
      usage := if run in reg then Some(reg[run]) else None;
      reg := reg - {run};
    }
  }

  // ---- conservation over every interleaving ----

  function Next(reg: Registry, e: Event): Registry
  {
    match e
    case Call(run, subject, input, output, cacheRead) => AfterCall(reg, run, subject, Tokens(input, output, cacheRead))
    case Take(run) => reg - {run}
  }

  function Run(events: seq<Event>): Registry
  {
    if events == [] then map[] else Next(Run(events[..|events| - 1]), events[|events| - 1])
  }

  // What one event records for a run.
  function Records(e: Event, run: RunId, f: Field): nat
  {
    match e
    case Call(r, subject, input, output, cacheRead) =>
      if r == run && StartsWith(subject, "tui:") then Get(Tokens(input, output, cacheRead), f) else 0
    case Take(_) => 0
  }

  function Recorded(events: seq<Event>, run: RunId, f: Field): nat
  {
    if events == [] then 0
    else Recorded(events[..|events| - 1], run, f) + Records(events[|events| - 1], run, f)
  }

  // What the drains of a run have returned.
  function Drained(events: seq<Event>, run: RunId, f: Field): nat
  {
    if events == [] then 0
    else
      var before, e := events[..|events| - 1], events[|events| - 1];
      Drained(before, run, f) + (if e == Take(run) then Get(Entry(Run(before), run), f) else 0)
  }

  predicate Agree(total: nat, kept: nat)
  {
    kept <= total && (total - kept) % U64_LIMIT == 0
  }

  lemma AddAgrees(total: nat, others: nat, a: nat, b: nat)
    requires Agree(total, others + a)
    ensures Agree(total + b, others + AddWrapping(a, b))
  {
    var carried := (a + b) / U64_LIMIT;
    assert a + b == carried * U64_LIMIT + AddWrapping(a, b);
    var k := (total - (others + a)) / U64_LIMIT;
    assert total - (others + a) == k * U64_LIMIT;
    assert total + b - (others + AddWrapping(a, b)) == (k + carried) * U64_LIMIT;
    Multiple(k + carried);
  }

  lemma Multiple(k: nat)
    ensures (k * U64_LIMIT) % U64_LIMIT == 0
  {
  }

  lemma CallEntry(reg: Registry, e: Event, run: RunId, f: Field)
    requires e.Call?
    ensures Get(Entry(Next(reg, e), run), f)
         == if e.run == run && IsTuiSubject(e.subject) then AddWrapping(Get(Entry(reg, run), f), Records(e, run, f))
            else Get(Entry(reg, run), f)
  {
  }

  // For every run: what the drains returned and what is still held make up what
  // its TUI calls recorded, up to multiples of 2^64 carried out by the counter.
  lemma {:induction false} UsageIsConserved(events: seq<Event>, run: RunId, f: Field)
    ensures Agree(Recorded(events, run, f), Drained(events, run, f) + Get(Entry(Run(events), run), f))
    decreases |events|
  {
    if events != [] {
      var before, e := events[..|events| - 1], events[|events| - 1];
      UsageIsConserved(before, run, f);
      if e.Call? {
        CallEntry(Run(before), e, run, f);
        AddAgrees(Recorded(before, run, f), Drained(before, run, f), Get(Entry(Run(before), run), f), Records(e, run, f));
      }
    }
  }

  // Without overflow nothing is lost or counted twice; other runs never enter.
  lemma UsageIsExact(events: seq<Event>, run: RunId, f: Field)
    requires Recorded(events, run, f) < U64_LIMIT
    ensures Recorded(events, run, f) == Drained(events, run, f) + Get(Entry(Run(events), run), f)
  {
    UsageIsConserved(events, run, f);
  }

  lemma {:induction false} OnlyTuiRunsAreHeld(events: seq<Event>, run: RunId)
    requires run in Run(events)
    ensures exists e <- events :: e.Call? && e.run == run && StartsWith(e.subject, "tui:")
    decreases |events|
  {
    var before, e := events[..|events| - 1], events[|events| - 1];
    assert e in events;
    if run in Run(before) {
      OnlyTuiRunsAreHeld(before, run);
      var c :| c in before && c.Call? && c.run == run && StartsWith(c.subject, "tui:");
      assert c in events;
    }
  }

  // ---- the client's totals ----

  function AddSaturating(a: nat, b: nat): nat
  {
    if a + b >= U64_LIMIT then U64_LIMIT - 1 else a + b
  }

  function SubSaturating(a: nat, b: nat): nat
  {
    if a < b then 0 else a - b
  }

  class UsageTotals {
    var tokensIn: nat
    var tokensCacheRead: nat
    var tokensOut: nat

    function Shown(): Tokens
      reads this
    {
      Tokens(tokensIn, tokensOut, tokensCacheRead)
    }

    constructor ()
      ensures Shown() == NO_TOKENS
    {
      tokensIn, tokensCacheRead, tokensOut := 0, 0, 0;
    }

    method RecordUsage(usage: Tokens)
      modifies this
      ensures Shown() == Show(old(Shown()), usage)
    {
      tokensIn := AddSaturating(tokensIn, SubSaturating(usage.input, usage.cacheRead));
      tokensCacheRead := AddSaturating(tokensCacheRead, usage.cacheRead);
      tokensOut := AddSaturating(tokensOut, usage.output);
    }
  }

  // `input` counts fresh input only; cached input is counted beside it.
  function Show(shown: Tokens, usage: Tokens): Tokens
  {
    Tokens(AddSaturating(shown.input, SubSaturating(usage.input, usage.cacheRead)),
           AddSaturating(shown.output, usage.output),
           AddSaturating(shown.cacheRead, usage.cacheRead))
  }

  function ShowAll(frames: seq<Tokens>): Tokens
  {
    if frames == [] then NO_TOKENS else Show(ShowAll(frames[..|frames| - 1]), frames[|frames| - 1])
  }

  function Sum(frames: seq<Tokens>, f: Field): nat
  {
    if frames == [] then 0 else Sum(frames[..|frames| - 1], f) + Get(frames[|frames| - 1], f)
  }

  // The input each frame stands for once its cached part is counted in full.
  function Charged(frames: seq<Tokens>): nat
  {
    if frames == [] then 0
    else
      var last := frames[|frames| - 1];
      Charged(frames[..|frames| - 1]) + (if last.input < last.cacheRead then last.cacheRead else last.input)
  }

  lemma {:induction false} TotalsWithoutSaturation(frames: seq<Tokens>)
    requires Charged(frames) < U64_LIMIT && Sum(frames, Output) < U64_LIMIT
    ensures ShowAll(frames).input + ShowAll(frames).cacheRead == Charged(frames)
    ensures ShowAll(frames).cacheRead == Sum(frames, CacheRead) && ShowAll(frames).output == Sum(frames, Output)
    decreases |frames|
  {
    if frames != [] {
      TotalsWithoutSaturation(frames[..|frames| - 1]);
    }
  }

  predicate CacheWithinInput(frames: seq<Tokens>)
  {
    forall u <- frames :: u.cacheRead <= u.input
  }

  lemma {:induction false} ChargedIsInput(frames: seq<Tokens>)
    ensures Sum(frames, Input) <= Charged(frames)
    ensures Charged(frames) == Sum(frames, Input) <==> CacheWithinInput(frames)
    decreases |frames|
  {
    if frames != [] {
      var front, last := frames[..|frames| - 1], frames[|frames| - 1];
      ChargedIsInput(front);
      assert frames == front + [last];
    }
  }

  // Short of saturation, the fresh and cached totals add up to the input received
  // exactly when no frame reads more from the cache than its input.
  lemma FreshAndCachedMakeInput(frames: seq<Tokens>)
    requires Charged(frames) < U64_LIMIT && Sum(frames, Output) < U64_LIMIT
    ensures ShowAll(frames).input + ShowAll(frames).cacheRead == Sum(frames, Input) <==> CacheWithinInput(frames)
    ensures ShowAll(frames).output == Sum(frames, Output)
  {
    TotalsWithoutSaturation(frames);
    ChargedIsInput(frames);
  }

  // ---- the totals in closed form ----

  function Capped(n: nat): nat
  {
    if n < U64_LIMIT then n else U64_LIMIT - 1
  }

  // Each total shown is the sum it stands for, or the largest value it can hold:
  // what was put out, what was read from the cache, and the input beyond that.
  lemma {:induction false} TotalsAreCappedSums(frames: seq<Tokens>)
    ensures Sum(frames, CacheRead) <= Charged(frames)
    ensures ShowAll(frames).output == Capped(Sum(frames, Output))
    ensures ShowAll(frames).cacheRead == Capped(Sum(frames, CacheRead))
    ensures ShowAll(frames).input == Capped(Charged(frames) - Sum(frames, CacheRead))
    decreases |frames|
  {
    if frames != [] {
      TotalsAreCappedSums(frames[..|frames| - 1]);
    }
  }
}
