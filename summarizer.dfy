/**
 * The summarizer (`GroqSummarizer.summarize`). The generation service is
 * an oracle: the replies it gives, in order, to the prompt built from the
 * text, each either a completion or a failure. A reply whose stripped text
 * is too short is rejected and the service is asked again. The source
 * counts no retries: only Python's recursion limit ends them, and its
 * `RecursionError` is caught like any failure, giving "". The model has no
 * recursion limit; the number of scripted replies is the fuel, and running
 * out of them before an answer is `Unfinished`.
 */
module Summarizer {
  import opened Text

  datatype Reply =
    | Completion(content: string)  // `completion.choices[0].message.content`
    | ServiceError                 // any exception: network, quota, missing content

  datatype Outcome =
    | Returned(summary: string)
    | Unfinished

  /**
   * The validation gate `len(summary.split(".")) >= 4`: since splitting
   * gives one more piece than there are periods, a summary passes exactly
   * when it holds at least three `.` characters.
   */
  function Accepts(summary: string): (ok: bool)
    ensures ok <==> Count(summary, '.') >= 3
  {
    |Split(summary, '.')| >= 4
  }

  /** A reply that the gate sends back for another attempt. */
  predicate Rejected(reply: Reply)
  {
    reply.Completion? && !Accepts(Strip(reply.content))
  }

  /** What `summarize` returns once a reply ends the retries. */
  function Answer(reply: Reply): string
  {
    match reply
    case ServiceError => ""
    case Completion(c) => Strip(c)
  }

  /**
   * test_mvp.py `summarize` (no cache). A rejected reply sends the request
   * again; any other reply ends it with its answer. Returns the outcome and
   * how many replies were consumed.
   */
  function Summarize(text: string, replies: seq<Reply>): (r: (Outcome, nat))
    decreases |replies|
    ensures r.1 <= |replies|
  {
    if replies == [] then (Unfinished, 0)
    else if Rejected(replies[0]) then
      var (o, k) := Summarize(text, replies[1..]);
      (o, k + 1)
    else (Returned(Answer(replies[0])), 1)
  }

  /**
   * The outcome is decided by the first reply the gate does not reject: a
   * failure gives "", an accepted completion its stripped text, and every
   * reply before it was a rejected completion. Only when every reply is
   * rejected is the call left unfinished.
   */
  lemma {:induction false} SummarizeSpec(text: string, replies: seq<Reply>)
    decreases |replies|
    ensures var (o, k) := Summarize(text, replies);
      && (o.Unfinished? <==> forall i :: 0 <= i < |replies| ==> Rejected(replies[i]))
      && (o.Unfinished? ==> k == |replies|)
      && (o.Returned? ==>
            && 0 < k
            && (forall i :: 0 <= i < k - 1 ==> Rejected(replies[i]))
            && !Rejected(replies[k - 1])
            && o.summary == Answer(replies[k - 1]))
  {
    if replies != [] && Rejected(replies[0]) {
      var tail := replies[1..];
      SummarizeSpec(text, tail);
      var (o, k) := Summarize(text, tail);
      assert Summarize(text, replies) == (o, k + 1);
      if o.Returned? {
        forall i | 0 <= i < k ensures Rejected(replies[i]) {
          if i > 0 {
            assert Rejected(tail[i - 1]);
            assert replies[i] == tail[i - 1];
          }
        }
        assert replies[k] == tail[k - 1];
      } else {
        forall i | 0 <= i < |replies| ensures Rejected(replies[i]) {
          if i > 0 {
            assert Rejected(tail[i - 1]);
            assert replies[i] == tail[i - 1];
          }
        }
      }
    }
  }

  /** A returned summary is either "" (the service failed) or passes the gate. */
  lemma ReturnedPassesGate(text: string, replies: seq<Reply>)
    requires Summarize(text, replies).0.Returned?
    ensures var s := Summarize(text, replies).0.summary;
      s == "" || (Accepts(s) && !IsSpace(s[0]) && !IsSpace(s[|s| - 1]))
  {
    SummarizeSpec(text, replies);
    var k := Summarize(text, replies).1;
    assert !Rejected(replies[k - 1]);
  }

  /** Every cached summary passed the gate. */
  predicate CacheValid(cache: map<string, string>)
  {
    forall t :: t in cache ==> Accepts(cache[t])
  }

  /**
   * main.py `summarize`: as above, but the cache is consulted first (and
   * again on every retry) and only an accepted summary is stored, keyed by
   * the text. Returns the outcome, the new cache and how many replies were
   * consumed.
   */
  function SummarizeCached(cache: map<string, string>, text: string, replies: seq<Reply>)
    : (r: (Outcome, map<string, string>, nat))
    decreases |replies|
    ensures r.2 <= |replies|
    ensures text in cache ==> r == (Returned(cache[text]), cache, 0)
    ensures r.1 == cache || (text !in cache && r.0.Returned? && Accepts(r.0.summary)
                             && r.1 == cache[text := r.0.summary])
    ensures text !in cache && r.0 == Returned("") ==> r.1 == cache
  {
    if text in cache then (Returned(cache[text]), cache, 0)
    else if replies == [] then (Unfinished, cache, 0)
    else if Rejected(replies[0]) then
      var (o, cache', k) := SummarizeCached(cache, text, replies[1..]);
      (o, cache', k + 1)
    else
      match replies[0]
      case ServiceError => (Returned(""), cache, 1)
      case Completion(c) => (Returned(Strip(c)), cache[text := Strip(c)], 1)
  }

  /**
   * On a cache miss, main.py's summarizer is test_mvp.py's summarizer
   * followed by storing the result when it is non-empty.
   */
  lemma {:induction false} CachedIsMemoized(cache: map<string, string>, text: string, replies: seq<Reply>)
    requires text !in cache
    ensures var (o, k) := Summarize(text, replies);
      SummarizeCached(cache, text, replies) ==
        (o, if o.Returned? && o.summary != "" then cache[text := o.summary] else cache, k)
    decreases |replies|
  {
    if replies != [] && Rejected(replies[0]) {
      CachedIsMemoized(cache, text, replies[1..]);
    }
  }

  /** The cache only ever holds summaries that passed the gate. */
  lemma CacheStaysValid(cache: map<string, string>, text: string, replies: seq<Reply>)
    requires CacheValid(cache)
    ensures CacheValid(SummarizeCached(cache, text, replies).1)
    ensures var o := SummarizeCached(cache, text, replies).0;
      o.Returned? && o.summary != "" ==> Accepts(o.summary)
  {
    if text !in cache {
      CachedIsMemoized(cache, text, replies);
      var (o, k) := Summarize(text, replies);
      if o.Returned? {
        ReturnedPassesGate(text, replies);
      }
    }
  }

  /**
   * Summarizing the same text twice: once the first call has produced a
   * summary, the second returns it from the cache without asking the
   * service.
   */
  lemma SecondCallHitsCache(cache: map<string, string>, text: string, replies: seq<Reply>, more: seq<Reply>)
    requires var (o, _, _) := SummarizeCached(cache, text, replies); o.Returned? && o.summary != ""
    ensures var (o, cache', _) := SummarizeCached(cache, text, replies);
      SummarizeCached(cache', text, more) == (o, cache', 0)
  {
    var (o, cache', _) := SummarizeCached(cache, text, replies);
    if text !in cache {
      CachedIsMemoized(cache, text, replies);
    }
  }

  lemma CountTwo()
    ensures Count("Mot. Hai.", '.') == 2
  {
    var s := "Mot. Hai.";
    assert s[1..][1..][1..][1..][1..][1..][1..][1..][1..] == [];
  }

  lemma CountThree()
    ensures Count("A. B. C.", '.') == 3
  {
    var s := "A. B. C.";
    assert s[1..][1..][1..][1..][1..][1..][1..][1..] == [];
  }

  lemma TwoSentencesRejected()
    ensures Rejected(Completion("Mot. Hai."))
  {
    CountTwo();
    StripCounts("Mot. Hai.", '.');
  }

  lemma ThreeSentencesAccepted()
    ensures !Rejected(Completion("A. B. C.")) && Answer(Completion("A. B. C.")) == "A. B. C."
  {
    CountThree();
    StripCounts("A. B. C.", '.');
    StripKeepsTrimmed("A. B. C.");
  }

  /** A rejected reply followed by one that is not: the second one decides. */
  lemma RetryOnce(text: string, first: Reply, second: Reply)
    requires Rejected(first) && !Rejected(second)
    ensures Summarize(text, [first, second]) == (Returned(Answer(second)), 2)
  {
    assert [first, second][1..] == [second];
  }

  /**
   * The gate at its boundary: a two-sentence reply is rejected and the
   * service is asked again; a three-sentence reply is the summary,
   * whatever the article's text.
   */
  lemma RetriesShortReply(text: string)
    ensures Summarize(text, [Completion("Mot. Hai."), Completion("A. B. C.")])
         == (Returned("A. B. C."), 2)
  {
    TwoSentencesRejected();
    ThreeSentencesAccepted();
    RetryOnce(text, Completion("Mot. Hai."), Completion("A. B. C."));
  }

  /** main.py's summarizer object: the cache lives as long as the object. */
  class GroqSummarizer {
    var cache: map<string, string>

    constructor ()
      ensures cache == map[]
    {
      cache := map[];
    }

    /**
     * `summarize`, retrying on a rejected reply as the source does, by
     * recursion. `used` is how many replies it consumed.
     */
    method Summarize(text: string, replies: seq<Reply>) returns (outcome: Outcome, used: nat)
      modifies this
      decreases |replies|
      ensures (outcome, cache, used) == SummarizeCached(old(cache), text, replies)
    {
      if text in cache {
        return Returned(cache[text]), 0;
      }
      if replies == [] {
        return Unfinished, 0;
      }
      match replies[0]
      case ServiceError =>
        return Returned(""), 1;
      case Completion(c) =>
        var summary := Strip(c);
        if !Accepts(summary) {
          outcome, used := Summarize(text, replies[1..]);
          used := used + 1;
          return;
        }
        cache := cache[text := summary];
        return Returned(summary), 1;
    }
  }
}
