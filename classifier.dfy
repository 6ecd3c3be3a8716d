/** The query-domain classifier `getQueryType` of app/page.tsx: the query is
    lower-cased and tested against four fixed keyword lists, in the order
    Transfers, Strategy, Analytics, Scouting; the first list with a keyword
    occurring anywhere in the query decides the domain, and a query that hits
    no list is General. Each domain carries a fixed badge (label, colour
    classes and icon). */
module Classifier {
  import opened Text

  datatype Domain = Transfers | Strategy | Analytics | Scouting | General

  const TransferKeywords: seq<string> := ["sign", "transfer", "buy", "sell", "contract", "target"]
  const StrategyKeywords: seq<string> := ["tactic", "formation", "approach", "press", "defend", "attack"]
  const AnalyticsKeywords: seq<string> := ["stat", "metric", "xg", "data", "performance", "analysis"]
  const ScoutingKeywords: seq<string> := ["scout", "prospect", "talent", "young", "promising", "identify"]

  /** The keyword list that selects each domain; General has none. */
  function Keywords(d: Domain): seq<string> {
    match d
    case Transfers => TransferKeywords
    case Strategy => StrategyKeywords
    case Analytics => AnalyticsKeywords
    case Scouting => ScoutingKeywords
    case General => []
  }

  /** Position of a domain in the order the lists are tried; General comes last. */
  function Rank(d: Domain): nat {
    match d
    case Transfers => 0
    case Strategy => 1
    case Analytics => 2
    case Scouting => 3
    case General => 4
  }

  /** Some keyword of `d`'s list occurs in the lower-cased query. */
  predicate Hits(q: string, d: Domain) {
    ContainsAny(Lower(q), Keywords(d))
  }

  /** `getQueryType(query).type`: the domain picked by the chain of `includes` tests.
      A domain other than General is only returned on a hit of its own list, and
      never while a list tried earlier also has a hit. */
  function Classify(q: string): (d: Domain)
    ensures d != General ==> Hits(q, d)
    ensures forall e :: Rank(e) < Rank(d) ==> !Hits(q, e)
  {
    var lq := Lower(q);
    if ContainsAny(lq, TransferKeywords) then Transfers
    else if ContainsAny(lq, StrategyKeywords) then Strategy
    else if ContainsAny(lq, AnalyticsKeywords) then Analytics
    else if ContainsAny(lq, ScoutingKeywords) then Scouting
    else General
  }

  /** The two properties in Classify's contract determine its result: `d` is the
      classification exactly when `d` is General or has a hit, and no domain tried
      before `d` has one. */
  lemma ClassifyIff(q: string, d: Domain)
    ensures Classify(q) == d <==>
      (d == General || Hits(q, d)) && forall e :: Rank(e) < Rank(d) ==> !Hits(q, e)
  {
  }

  /** Every query gets a domain, and it is General exactly when no keyword of any
      list occurs in it; the empty query is General. */
  lemma GeneralIffNoHit(q: string)
    ensures Classify(q) == General <==> forall d :: !Hits(q, d)
    ensures Classify([]) == General
  {
    if Classify(q) == General {
      forall d ensures !Hits(q, d) {
        assert Rank(d) < Rank(General) || d == General;
      }
    }
    assert Lower([]) == [];
    forall j | 0 <= j < |TransferKeywords| ensures !Contains([], TransferKeywords[j]) {
      NotContainsInEmpty(TransferKeywords[j]);
    }
    forall j | 0 <= j < |StrategyKeywords| ensures !Contains([], StrategyKeywords[j]) {
      NotContainsInEmpty(StrategyKeywords[j]);
    }
    forall j | 0 <= j < |AnalyticsKeywords| ensures !Contains([], AnalyticsKeywords[j]) {
      NotContainsInEmpty(AnalyticsKeywords[j]);
    }
    forall j | 0 <= j < |ScoutingKeywords| ensures !Contains([], ScoutingKeywords[j]) {
      NotContainsInEmpty(ScoutingKeywords[j]);
    }
  }

  /** A Transfers keyword anywhere in the query makes it Transfers, whatever else
      the query contains. */
  lemma TransferKeywordWins(q: string, k: string)
    requires k in TransferKeywords && Contains(Lower(q), k)
    ensures Classify(q) == Transfers
  {
    var j :| 0 <= j < |TransferKeywords| && TransferKeywords[j] == k;
  }

  /** "attack transfer" names a Strategy keyword first, but is Transfers. */
  lemma AttackTransferIsTransfers(q: string)
    requires q == "attack transfer"
    ensures Classify(q) == Transfers
  {
    LowerOfNoUpper(q);
    assert q[7..15] == "transfer";
    assert OccursAt(Lower(q), "transfer", 7);
    TransferKeywordWins(q, "transfer");
  }

  /** Only the lower-cased query matters: case variants classify alike. */
  lemma ClassifyIgnoresCase(a: string, b: string)
    requires Lower(a) == Lower(b)
    ensures Classify(a) == Classify(b)
    ensures Classify(Lower(a)) == Classify(a)
  {
    LowerIdempotent(a);
  }

  /** Keywords match as substrings, so surrounding a query with more text can only
      move it to a domain tried earlier, never to a later one. */
  lemma ClassifyExtend(a: string, q: string, b: string)
    ensures Rank(Classify(a + q + b)) <= Rank(Classify(q))
  {
    var d := Classify(q);
    if d != General {
      LowerConcat(a + q, b);
      LowerConcat(a, q);
      ContainsAnyExtend(Lower(a), Lower(q), Lower(b), Keywords(d));
      assert Hits(a + q + b, d);
    }
  }

  /** The same classification as an ordered list of (domain, keyword list) pairs
      tried top to bottom. */
  function FirstHit(q: string, order: seq<Domain>): (d: Domain)
    ensures d == General || d in order
  {
    if order == [] then General
    else if Hits(q, order[0]) then order[0]
    else FirstHit(q, order[1..])
  }

  const Priority: seq<Domain> := [Transfers, Strategy, Analytics, Scouting]

  lemma ClassifyIsFirstHit(q: string)
    ensures Classify(q) == FirstHit(q, Priority)
  {
    assert Priority[1..] == [Strategy, Analytics, Scouting];
    assert Priority[2..] == [Analytics, Scouting];
    assert Priority[3..] == [Scouting];
    assert FirstHit(q, [Scouting]) == if Hits(q, Scouting) then Scouting else FirstHit(q, []);
    assert FirstHit(q, [Analytics, Scouting]) == if Hits(q, Analytics) then Analytics else FirstHit(q, [Scouting]);
    assert FirstHit(q, Priority[1..]) == if Hits(q, Strategy) then Strategy else FirstHit(q, [Analytics, Scouting]);
  }

  /** No keyword contains a space. */
  lemma KeywordsHaveNoSpaces(d: Domain)
    ensures NoSpaces(Keywords(d))
  {
  }

  /** A query made of words joined by spaces hits a list exactly when one of its
      lower-cased words does: keywords never span two words. */
  lemma HitsInWords(ws: seq<string>, d: Domain)
    requires ws != []
    ensures Hits(JoinWords(ws), d) <==> exists x :: 0 <= x < |ws| && ContainsAny(Lower(ws[x]), Keywords(d))
  {
    KeywordsHaveNoSpaces(d);
    ContainsAnyInLowerWords(ws, Keywords(d));
  }

  // The badge `getQueryType` returns beside the label.

  /** Badge text, Tailwind colour classes and the name of the icon component. */
  datatype Badge = Badge(name: string, color: string, icon: string)

  function Label(d: Domain): string {
    match d
    case Transfers => "Transfers"
    case Strategy => "Strategy"
    case Analytics => "Analytics"
    case Scouting => "Scouting"
    case General => "General"
  }

  function Colour(d: Domain): string {
    match d
    case Transfers => "bg-blue-100 text-blue-800"
    case Strategy => "bg-amber-100 text-amber-800"
    case Analytics => "bg-emerald-100 text-emerald-800"
    case Scouting => "bg-purple-100 text-purple-800"
    case General => "bg-gray-100 text-gray-800"
  }

  function Icon(d: Domain): string {
    match d
    case Transfers => "UsersIcon"
    case Strategy => "TrendingUpIcon"
    case Analytics => "BarChart3Icon"
    case Scouting => "SearchIcon"
    case General => "Info"
  }

  function BadgeOf(d: Domain): Badge {
    Badge(Label(d), Colour(d), Icon(d))
  }

  /** Each domain has its own non-empty label and its own colour, so either one
      alone tells the domain back. */
  lemma BadgesDistinct(d: Domain, e: Domain)
    ensures Label(d) != []
    ensures Label(d) == Label(e) <==> d == e
    ensures Colour(d) == Colour(e) <==> d == e
  {
  }

  /** `getQueryType(query)`: the badge of the query's domain. */
  function QueryType(q: string): (b: Badge)
    ensures b.name != []
    ensures forall d :: b.name == Label(d) <==> Classify(q) == d
    ensures forall d :: b.color == Colour(d) <==> Classify(q) == d
    ensures b.icon == Icon(Classify(q))
  {
    var d := Classify(q);
    BadgesDistinct(d, d);
    forall e
      ensures Label(d) == Label(e) <==> d == e
      ensures Colour(d) == Colour(e) <==> d == e
    {
      BadgesDistinct(d, e);
    }
    BadgeOf(d)
  }
}
