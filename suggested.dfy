/** The six example queries the dashboard offers in its sidebar, and the domain
    `getQueryType` gives each. Matching is on substrings, not whole words, so
    "tactical" hits "tactic" and "pressing" hits "press".

    Each suggestion is written as its list of words; the query text is those
    words joined by single spaces. */
module Suggestions {
  import opened Text
  import opened Classifier
  import opened ChatView

  const SuggestedWords: seq<seq<string>> := [
    ["Analyze", "potential", "striker", "targets", "under", "25", "years", "old"],
    ["Suggest", "tactical", "approach", "against", "low-block", "teams"],
    ["Compare", "our", "defensive", "metrics", "to", "top", "4", "teams"],
    ["Identify", "promising", "right-backs", "in", "Ligue", "1", "and", "Bundesliga"],
    ["Evaluate", "our", "pressing", "effectiveness", "this", "season"],
    ["Analyze", "the", "cost-benefit", "of", "midfield", "reinforcements"]
  ]

  /** The `n`-th suggested query as the user would submit it. */
  function Suggested(n: nat): string
    requires n < |SuggestedWords|
  {
    JoinWords(SuggestedWords[n])
  }

  /** The domain each suggestion is classified as. */
  const SuggestedDomains: seq<Domain> := [Transfers, Strategy, Analytics, Scouting, Strategy, General]

  // Two ways of settling a (word list, domain) pair without evaluating the search
  // on the whole query: exhibit one occurrence, or show every window misses.

  /** Some keyword of `d` occurs at position `i` of the lower-cased `x`-th word. */
  lemma HitInWord(ws: seq<string>, x: int, d: Domain, k: string, i: int)
    requires 0 <= x < |ws| && k in Keywords(d) && OccursAt(Lower(ws[x]), k, i)
    ensures Hits(JoinWords(ws), d)
  {
    var j :| 0 <= j < |Keywords(d)| && Keywords(d)[j] == k;
    assert Contains(Lower(ws[x]), Keywords(d)[j]);
    HitsInWords(ws, d);
  }

  /** The lower-cased window of `s` at `i` differs from `k` within its first six
      characters (no keyword shares more than five leading characters with a
      window of a suggested word it does not occur in). */
  predicate EarlyMismatch(s: string, k: string, i: nat)
    requires i + |k| <= |s|
  {
    (|k| > 0 && LowerChar(s[i]) != k[0]) || (|k| > 1 && LowerChar(s[i + 1]) != k[1]) ||
    (|k| > 2 && LowerChar(s[i + 2]) != k[2]) || (|k| > 3 && LowerChar(s[i + 3]) != k[3]) ||
    (|k| > 4 && LowerChar(s[i + 4]) != k[4]) || (|k| > 5 && LowerChar(s[i + 5]) != k[5])
  }

  lemma MismatchNotOccurs(s: string, k: string, i: nat)
    requires i + |k| <= |s| && EarlyMismatch(s, k, i)
    ensures !OccursAt(Lower(s), k, i)
  {
    var m :| 0 <= m < |k| && LowerChar(s[i + m]) != k[m];
    assert Lower(s)[i..i + |k|][m] == Lower(s)[i + m];
  }

  /** When every window of every word mismatches every keyword of `d`, the query
      misses `d`'s list. */
  lemma MissInWords(ws: seq<string>, d: Domain)
    requires ws != []
    requires forall x, j, i :: 0 <= x < |ws| && 0 <= j < |Keywords(d)| && 0 <= i <= |ws[x]| - |Keywords(d)[j]| ==>
      EarlyMismatch(ws[x], Keywords(d)[j], i)
    ensures !Hits(JoinWords(ws), d)
  {
    var ks := Keywords(d);
    forall x | 0 <= x < |ws|
      ensures !ContainsAny(Lower(ws[x]), ks)
    {
      forall j, i | 0 <= j < |ks| && 0 <= i <= |ws[x]| - |ks[j]|
        ensures !OccursAt(Lower(ws[x]), ks[j], i)
      {
        MismatchNotOccurs(ws[x], ks[j], i);
      }
    }
    HitsInWords(ws, d);
  }

  // One lemma per suggestion and per list it must miss. Each is stated for an index
  // `n` pinned by its precondition rather than for a literal index, which keeps
  // the verifier from unfolding the whole query text.

  /** "Analyze potential striker targets under 25 years old": "targets" holds "target". */
  lemma Suggestion0(n: nat)
    requires n == 0
    ensures Classify(Suggested(n)) == Transfers
  {
    var ws := SuggestedWords[n];
    assert Lower(ws[3])[0..6] == "target";
    HitInWord(ws, 3, Transfers, "target", 0);
    ClassifyIff(Suggested(n), Transfers);
  }

  lemma Suggestion1MissesTransfers(n: nat)
    requires n == 1
    ensures !Hits(Suggested(n), Transfers)
  {
    MissInWords(SuggestedWords[n], Transfers);
  }

  /** "Suggest tactical approach against low-block teams": no Transfers keyword, and
      "tactical" holds "tactic". */
  lemma Suggestion1(n: nat)
    requires n == 1
    ensures Classify(Suggested(n)) == Strategy
  {
    var ws := SuggestedWords[n];
    Suggestion1MissesTransfers(n);
    assert Lower(ws[1])[0..6] == "tactic";
    HitInWord(ws, 1, Strategy, "tactic", 0);
    ClassifyIff(Suggested(n), Strategy);
  }

  lemma Suggestion2MissesTransfers(n: nat)
    requires n == 2
    ensures !Hits(Suggested(n), Transfers)
  {
    MissInWords(SuggestedWords[n], Transfers);
  }

  lemma Suggestion2MissesStrategy(n: nat)
    requires n == 2
    ensures !Hits(Suggested(n), Strategy)
  {
    MissInWords(SuggestedWords[n], Strategy);
  }

  /** "Compare our defensive metrics to top 4 teams": "defensive" is not "defend",
      and "metrics" holds "metric". */
  lemma Suggestion2(n: nat)
    requires n == 2
    ensures Classify(Suggested(n)) == Analytics
  {
    var ws := SuggestedWords[n];
    Suggestion2MissesTransfers(n);
    Suggestion2MissesStrategy(n);
    assert Lower(ws[3])[0..6] == "metric";
    HitInWord(ws, 3, Analytics, "metric", 0);
    ClassifyIff(Suggested(n), Analytics);
  }

  lemma Suggestion3MissesTransfers(n: nat)
    requires n == 3
    ensures !Hits(Suggested(n), Transfers)
  {
    MissInWords(SuggestedWords[n], Transfers);
  }

  lemma Suggestion3MissesStrategy(n: nat)
    requires n == 3
    ensures !Hits(Suggested(n), Strategy)
  {
    MissInWords(SuggestedWords[n], Strategy);
  }

  lemma Suggestion3MissesAnalytics(n: nat)
    requires n == 3
    ensures !Hits(Suggested(n), Analytics)
  {
    MissInWords(SuggestedWords[n], Analytics);
  }

  /** "Identify promising right-backs in Ligue 1 and Bundesliga": Scouting, through
      "identify" (and "promising"). */
  lemma Suggestion3(n: nat)
    requires n == 3
    ensures Classify(Suggested(n)) == Scouting
  {
    var ws := SuggestedWords[n];
    Suggestion3MissesTransfers(n);
    Suggestion3MissesStrategy(n);
    Suggestion3MissesAnalytics(n);
    assert Lower(ws[0])[0..8] == "identify";
    HitInWord(ws, 0, Scouting, "identify", 0);
    ClassifyIff(Suggested(n), Scouting);
  }

  lemma Suggestion4MissesTransfers(n: nat)
    requires n == 4
    ensures !Hits(Suggested(n), Transfers)
  {
    MissInWords(SuggestedWords[n], Transfers);
  }

  /** "Evaluate our pressing effectiveness this season": "pressing" holds "press". */
  lemma Suggestion4(n: nat)
    requires n == 4
    ensures Classify(Suggested(n)) == Strategy
  {
    var ws := SuggestedWords[n];
    Suggestion4MissesTransfers(n);
    assert Lower(ws[2])[0..5] == "press";
    HitInWord(ws, 2, Strategy, "press", 0);
    ClassifyIff(Suggested(n), Strategy);
  }

  lemma Suggestion5MissesTransfers(n: nat)
    requires n == 5
    ensures !Hits(Suggested(n), Transfers)
  {
    MissInWords(SuggestedWords[n], Transfers);
  }

  lemma Suggestion5MissesStrategy(n: nat)
    requires n == 5
    ensures !Hits(Suggested(n), Strategy)
  {
    MissInWords(SuggestedWords[n], Strategy);
  }

  lemma Suggestion5MissesAnalytics(n: nat)
    requires n == 5
    ensures !Hits(Suggested(n), Analytics)
  {
    MissInWords(SuggestedWords[n], Analytics);
  }

  lemma Suggestion5MissesScouting(n: nat)
    requires n == 5
    ensures !Hits(Suggested(n), Scouting)
  {
    MissInWords(SuggestedWords[n], Scouting);
  }

  /** "Analyze the cost-benefit of midfield reinforcements" hits no list. */
  lemma Suggestion5(n: nat)
    requires n == 5
    ensures Classify(Suggested(n)) == General
  {
    Suggestion5MissesTransfers(n);
    Suggestion5MissesStrategy(n);
    Suggestion5MissesAnalytics(n);
    Suggestion5MissesScouting(n);
    ClassifyIff(Suggested(n), General);
  }

  /** Every suggestion gets the domain listed for it. */
  lemma SuggestedClassified(n: nat)
    requires n < |SuggestedWords|
    ensures Classify(Suggested(n)) == SuggestedDomains[n]
  {
    if n == 0 { Suggestion0(n); }
    else if n == 1 { Suggestion1(n); }
    else if n == 2 { Suggestion2(n); }
    else if n == 3 { Suggestion3(n); }
    else if n == 4 { Suggestion4(n); }
    else { Suggestion5(n); }
  }

  /** Clicking a suggestion copies it into the input box, and from there it can be
      sent whenever no answer is in flight: no suggestion is blank. */
  lemma SuggestionSubmittable(n: nat)
    requires n < |SuggestedWords|
    ensures SubmitEnabled(false, Suggested(n))
  {
    var ws := SuggestedWords[n];
    assert ws[0] != [] && !IsWhitespace(ws[0][0]);
    assert Suggested(n)[0] == ws[0][0];
  }
}
