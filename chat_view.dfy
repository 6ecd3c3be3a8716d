/** The parts of the dashboard page that turn the message log into what is shown:
    the chat tab (a badge over user messages only), the history tab (the user
    messages, in order, each with its badge) and the send button's guard. The
    message log and the loading flag belong to the chat library and are inputs
    here. */
module ChatView {
  import opened Text
  import opened Classifier

  /** Who wrote a message: the person asking, or the model answering. */
  datatype Role = User | Assistant

  datatype Message = Message(id: string, role: Role, content: string)

  /** What a message that is not the user's gets in place of a query badge:
      empty label, no colour classes, an empty icon fragment. */
  const NoBadge: Badge := Badge("", "", "")

  /** How the chat tab renders one message. */
  datatype MessageView = MessageView(showBadge: bool, badge: Badge, alignEnd: bool, content: string)

  /** A user message is right-aligned under the badge of its query; any other
      message is left-aligned with no badge. */
  function ViewMessage(m: Message): (v: MessageView)
    ensures v.showBadge <==> m.role == User
    ensures v.alignEnd <==> m.role == User
    ensures v.showBadge <==> v.badge.name != []
    ensures v.showBadge ==> v.badge == QueryType(m.content)
    ensures v.showBadge ==> v.badge.name == Label(Classify(m.content))
    ensures !v.showBadge ==> v.badge == NoBadge
    ensures v.content == m.content
  {
    var show := m.role == User;
    MessageView(show, if show then QueryType(m.content) else NoBadge, show, m.content)
  }

  /** One view per message, in log order. */
  function Views(ms: seq<Message>): (vs: seq<MessageView>)
    ensures |vs| == |ms|
  {
    seq(|ms|, i requires 0 <= i < |ms| => ViewMessage(ms[i]))
  }

  /** The chat tab: a welcome panel while the log is empty, otherwise one view
      per message, in log order. */
  datatype ChatPane = Welcome | Thread(views: seq<MessageView>)

  function Chat(ms: seq<Message>): (p: ChatPane)
    ensures p.Welcome? <==> ms == []
    ensures p.Thread? ==> |p.views| == |ms|
    ensures p.Thread? ==> forall i :: 0 <= i < |ms| ==> p.views[i] == ViewMessage(ms[i])
  {
    if |ms| == 0 then Welcome else Thread(Views(ms))
  }

  /** The badges the chat tab actually displays, in order. */
  function ShownBadges(vs: seq<MessageView>): seq<Badge>
  {
    if vs == [] then []
    else if vs[|vs| - 1].showBadge then ShownBadges(vs[..|vs| - 1]) + [vs[|vs| - 1].badge]
    else ShownBadges(vs[..|vs| - 1])
  }

  /** Each badge displayed comes from a view that shows its badge, and every view
      that shows one has it displayed. */
  lemma {:induction false} ShownBadgesFromViews(vs: seq<MessageView>)
    ensures forall b :: b in ShownBadges(vs) ==> exists i :: 0 <= i < |vs| && vs[i].showBadge && vs[i].badge == b
    ensures forall i :: 0 <= i < |vs| && vs[i].showBadge ==> vs[i].badge in ShownBadges(vs)
  {
    if vs != [] {
      var init := vs[..|vs| - 1];
      ShownBadgesFromViews(init);
      assert forall i :: 0 <= i < |init| ==> init[i] == vs[i];
    }
  }

  // The history tab.

  /** One row of the history tab: the query text and its badge. */
  datatype HistoryEntry = HistoryEntry(content: string, badge: Badge)

  /** The user's messages, keeping their order. */
  function UserMessages(ms: seq<Message>): (us: seq<Message>)
    ensures |us| <= |ms|
    ensures forall i :: 0 <= i < |us| ==> us[i].role == User
  {
    if ms == [] then []
    else if ms[|ms| - 1].role == User then UserMessages(ms[..|ms| - 1]) + [ms[|ms| - 1]]
    else UserMessages(ms[..|ms| - 1])
  }

  function Entry(m: Message): HistoryEntry {
    HistoryEntry(m.content, QueryType(m.content))
  }

  /** The rows of the history tab: each user message with its query badge. */
  function History(ms: seq<Message>): (h: seq<HistoryEntry>)
    ensures |h| == |UserMessages(ms)|
  {
    var us := UserMessages(ms);
    seq(|us|, i requires 0 <= i < |us| => Entry(us[i]))
  }

  /** The history tab: a placeholder while the log is empty, otherwise the list of
      rows. The test is on the whole log, so a log holding only assistant
      messages shows an empty list rather than the placeholder. */
  datatype HistoryPane = NoQueriesYet | Rows(entries: seq<HistoryEntry>)

  function HistoryTab(ms: seq<Message>): (p: HistoryPane)
    ensures p.NoQueriesYet? <==> ms == []
    ensures p.Rows? ==> p.entries == History(ms)
    ensures p.Rows? ==> (p.entries == [] <==> forall i :: 0 <= i < |ms| ==> ms[i].role != User)
  {
    UserMessagesEmptyIff(ms);
    if |ms| == 0 then NoQueriesYet else Rows(History(ms))
  }

  lemma {:induction false} UserMessagesEmptyIff(ms: seq<Message>)
    ensures UserMessages(ms) == [] <==> forall i :: 0 <= i < |ms| ==> ms[i].role != User
  {
    if ms != [] {
      var init := ms[..|ms| - 1];
      UserMessagesEmptyIff(init);
      if ms[|ms| - 1].role != User {
        forall i | 0 <= i < |init|
          ensures init[i] == ms[i]
        {
        }
      }
    }
  }

  /** The positions in the log of the user's messages, in increasing order; every
      user message has its position listed. */
  function UserPositions(ms: seq<Message>): (ps: seq<nat>)
    ensures forall i :: 0 <= i < |ps| ==> ps[i] < |ms| && ms[ps[i]].role == User
    ensures forall i, j :: 0 <= i < j < |ps| ==> ps[i] < ps[j]
    ensures forall p :: 0 <= p < |ms| && ms[p].role == User ==> p in ps
  {
    if ms == [] then []
    else
      var init := ms[..|ms| - 1];
      var rest := UserPositions(init);
      assert forall p :: 0 <= p < |init| ==> init[p] == ms[p];
      if ms[|ms| - 1].role == User then rest + [|ms| - 1] else rest
  }

  /** The filter keeps exactly the messages at the user positions, in order. */
  lemma {:induction false} UserMessagesAtPositions(ms: seq<Message>)
    ensures |UserMessages(ms)| == |UserPositions(ms)|
    ensures forall i :: 0 <= i < |UserPositions(ms)| ==> UserMessages(ms)[i] == ms[UserPositions(ms)[i]]
  {
    if ms != [] {
      var init := ms[..|ms| - 1];
      UserMessagesAtPositions(init);
      assert forall p :: 0 <= p < |init| ==> init[p] == ms[p];
    }
  }

  /** The history tab lists exactly the user messages, in their order in the log,
      each paired with its classification badge. */
  lemma HistoryIsUserMessages(ms: seq<Message>)
    ensures |History(ms)| == |UserPositions(ms)|
    ensures forall i :: 0 <= i < |History(ms)| ==>
              History(ms)[i].content == ms[UserPositions(ms)[i]].content &&
              History(ms)[i].badge == QueryType(ms[UserPositions(ms)[i]].content)
  {
    UserMessagesAtPositions(ms);
  }

  /** The filter distributes over concatenation of logs. */
  lemma {:induction false} UserMessagesConcat(a: seq<Message>, b: seq<Message>)
    ensures UserMessages(a + b) == UserMessages(a) + UserMessages(b)
    decreases |b|
  {
    if b != [] {
      var init := b[..|b| - 1];
      UserMessagesConcat(a, init);
      assert (a + b)[..|a + b| - 1] == a + init;
    } else {
      assert a + b == a;
    }
  }

  /** A new user message adds its row at the end of the history; any other new
      message leaves the history as it was. */
  lemma HistoryAppend(ms: seq<Message>, m: Message)
    ensures m.role == User ==> History(ms + [m]) == History(ms) + [Entry(m)]
    ensures m.role != User ==> History(ms + [m]) == History(ms)
  {
    UserMessagesConcat(ms, [m]);
    assert UserMessages([m]) == if m.role == User then [m] else [] by {
      assert [m][..0] == [];
    }
  }

  lemma {:induction false} ShownBadgesAreHistoryBadges(ms: seq<Message>)
    ensures |ShownBadges(Views(ms))| == |History(ms)|
    ensures forall i :: 0 <= i < |History(ms)| ==> ShownBadges(Views(ms))[i] == History(ms)[i].badge
    decreases |ms|
  {
    if ms != [] {
      var init, last, vs := ms[..|ms| - 1], ms[|ms| - 1], Views(ms);
      ShownBadgesAreHistoryBadges(init);
      assert vs[..|ms| - 1] == Views(init);
      assert init + [last] == ms;
      HistoryAppend(init, last);
      if last.role == User {
        assert ShownBadges(vs) == ShownBadges(Views(init)) + [QueryType(last.content)];
        assert History(ms) == History(init) + [Entry(last)];
      } else {
        assert ShownBadges(vs) == ShownBadges(Views(init));
        assert History(ms) == History(init);
      }
    }
  }

  /** The badges the chat tab shows are, in order, the badges of the history
      tab's rows. */
  lemma ChatBadgesMatchHistory(ms: seq<Message>)
    requires ms != []
    ensures |ShownBadges(Chat(ms).views)| == |History(ms)|
    ensures forall i :: 0 <= i < |History(ms)| ==> ShownBadges(Chat(ms).views)[i] == History(ms)[i].badge
  {
    assert Chat(ms).views == Views(ms);
    ShownBadgesAreHistoryBadges(ms);
  }

  // The send button.

  /** `disabled={isLoading || !input.trim()}` is false: nothing is in flight and
      the input has a character that is not white space. */
  function SubmitEnabled(isLoading: bool, input: string): (ok: bool)
    ensures ok <==> !isLoading && exists i :: 0 <= i < |input| && !IsWhitespace(input[i])
  {
    TrimEmptyIff(input);
    !(isLoading || Trim(input) == [])
  }
}
