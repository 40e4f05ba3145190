/**
 * The provider chain of `search_person`: SerpAPI first; on any falsy answer the
 * Bing branch; and, when the Bing branch faults, a bounded retry of the whole
 * chain that is counted per full name in the process-wide `retry_attempts`
 * dictionary. The providers' answers are an input: `answers(i)` is what the
 * `i`-th invocation of `search_person` for this task gets from SerpAPI and from
 * the browser.
 */
module Retry {
  import opened Wrappers
  import opened Records
  import opened Scoring
  import opened Providers

  /** What one invocation of `search_person` gets from its two providers. */
  datatype Attempt = Attempt(serp: SerpResponse, bing: BingPage)

  /** `MAX_RETRIES`. */
  const MaxRetries: nat := 2

  /** `retry_attempts.get(name, 0)`. */
  function Used(retries: map<string, nat>, name: string): nat
  {
    if name in retries then retries[name] else 0
  }

  /** The outcome of a chain: its answer, the counters afterwards, and how many
      invocations of `search_person` it took (one plus the retries). */
  datatype ChainRun = ChainRun(result: Option<Row>, retries: map<string, nat>, calls: nat)

  /** `search_person(person, cos_th, fuzz_th, api_key)` starting with the `i`-th
      answers and the counters `retries`. The retry passes no thresholds and no
      key, so it runs with the defaults and the environment key. Whatever the
      chain answers is a row for the person it was asked about, with a profile
      link, and the chain takes at most one invocation per retry left plus one. */
  function Chain(m: Models, p: Person, cosTh: real, fuzzTh: real, apiKey: string, envKey: string,
                 answers: nat -> Attempt, i: nat, retries: map<string, nat>): (run: ChainRun)
    ensures run.result.Some? ==>
      run.result.value.firstName == p.firstName && run.result.value.lastName == p.lastName && run.result.value.url != ""
    ensures 1 <= run.calls <= 1 + (if Used(retries, FullName(p)) < MaxRetries then MaxRetries - Used(retries, FullName(p)) else 0)
    decreases MaxRetries - Used(retries, FullName(p))
  {
    var a := answers(i);
    var first := SerpApiOutcome(m, p, apiKey, envKey, a.serp);
    if first.Some? then ChainRun(first, retries, 1)
    else
      var name := FullName(p);
      var attempt := Used(retries, name);
      match a.bing
      case BingEntries(es) => ChainRun(BingOutcome(m, p, cosTh, fuzzTh, es), retries, 1)
      case BingFault =>
        if attempt < MaxRetries then
          var rest := Chain(m, p, DefaultCosine, DefaultFuzzy, "", envKey, answers, i + 1, retries[name := attempt + 1]);
          ChainRun(rest.result, rest.retries, rest.calls + 1)
        else ChainRun(None, retries, 1)
  }

  /** The counter of the person's name grows by exactly one per retry and never
      past `MAX_RETRIES`; every other name's counter is left alone. */
  lemma {:induction false} ChainCountsRetries(m: Models, p: Person, cosTh: real, fuzzTh: real, apiKey: string,
                                              envKey: string, answers: nat -> Attempt, i: nat, retries: map<string, nat>)
    requires Used(retries, FullName(p)) <= MaxRetries
    ensures var run, name := Chain(m, p, cosTh, fuzzTh, apiKey, envKey, answers, i, retries), FullName(p);
      && 1 <= run.calls
      && Used(run.retries, name) == Used(retries, name) + run.calls - 1
      && Used(run.retries, name) <= MaxRetries
      && run.retries.Keys <= retries.Keys + {name}
      && (forall n :: n in retries && n != name ==> n in run.retries && run.retries[n] == retries[n])
    decreases MaxRetries - Used(retries, FullName(p))
  {
    var name := FullName(p);
    var a := answers(i);
    var attempt := Used(retries, name);
    if SerpApiOutcome(m, p, apiKey, envKey, a.serp).None? && a.bing.BingFault? && attempt < MaxRetries {
      var retries' := retries[name := attempt + 1];
      ChainCountsRetries(m, p, DefaultCosine, DefaultFuzzy, "", envKey, answers, i + 1, retries');
    }
  }

  /** A name that has used up its retries is never retried again: the chain
      makes one invocation and leaves the counters as they are. */
  lemma ChainExhausted(m: Models, p: Person, cosTh: real, fuzzTh: real, apiKey: string,
                       envKey: string, answers: nat -> Attempt, i: nat, retries: map<string, nat>)
    requires Used(retries, FullName(p)) >= MaxRetries
    ensures var run := Chain(m, p, cosTh, fuzzTh, apiKey, envKey, answers, i, retries);
      run.calls == 1 && run.retries == retries
  {
  }

  /** The chain retries only when SerpAPI gave nothing and the Bing branch
      faulted; otherwise the first invocation's answer stands: SerpAPI's row
      when it has one, and the Bing branch's answer (a row or nothing) when not. */
  lemma ChainFirstInvocation(m: Models, p: Person, cosTh: real, fuzzTh: real, apiKey: string,
                             envKey: string, answers: nat -> Attempt, i: nat, retries: map<string, nat>)
    ensures var run, a := Chain(m, p, cosTh, fuzzTh, apiKey, envKey, answers, i, retries), answers(i);
      var first := SerpApiOutcome(m, p, apiKey, envKey, a.serp);
      && (run.calls > 1 ==> first.None? && a.bing.BingFault? && Used(retries, FullName(p)) < MaxRetries)
      && (first.Some? ==> run == ChainRun(first, retries, 1))
      && (first.None? && a.bing.BingEntries? ==> run == ChainRun(BingOutcome(m, p, cosTh, fuzzTh, a.bing.entries), retries, 1))
  {
  }

  /** The retry forgets the caller's thresholds and key: once the first
      invocation has come to a retry, what the chain answers does not depend on
      them. */
  lemma ChainRetryForgetsCaller(m: Models, p: Person, cos1: real, fuzz1: real, key1: string,
                                cos2: real, fuzz2: real, key2: string,
                                envKey: string, answers: nat -> Attempt, i: nat, retries: map<string, nat>)
    requires SerpApiOutcome(m, p, key1, envKey, answers(i).serp).None?
    requires SerpApiOutcome(m, p, key2, envKey, answers(i).serp).None?
    requires answers(i).bing.BingFault?
    ensures Chain(m, p, cos1, fuzz1, key1, envKey, answers, i, retries)
         == Chain(m, p, cos2, fuzz2, key2, envKey, answers, i, retries)
  {
  }
}
