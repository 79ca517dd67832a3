// The blog-post workflow of chapter 17, twice: first as a post holding a
// state object that decides each transition, then with one type per state.
module Blog {

  // ---------------------------------------------------------------------
  // The state objects.

  /** `Draft`, `PendingReview { approve_time }` and `Published`. */
  datatype State = Draft | PendingReview(approveTime: int) | Published

  /** The states a post can be in: a pending review has seen fewer than two
      approvals. */
  predicate Reachable(s: State) {
    s.PendingReview? ==> 0 <= s.approveTime < 2
  }

  function RequestReviewOf(s: State): State {
    match s
    case Draft => PendingReview(0)
    case PendingReview(_) => s
    case Published => s
  }

  /** A pending review counts the approval and publishes on the second. */
  function ApproveOf(s: State): State {
    match s
    case Draft => s
    case PendingReview(t) => if t + 1 == 2 then Published else PendingReview(t + 1)
    case Published => s
  }

  function RejectOf(s: State): State {
    match s
    case Draft => s
    case PendingReview(_) => Draft
    case Published => s
  }

  /** What `content()` shows: the default method returns the empty text, and
      only `Published` overrides it with the post's text. */
  function ContentOf(s: State, text: string): string {
    match s
    case Published => text
    case _ => ""
  }

  /** Every transition keeps a post among the reachable states. */
  lemma TransitionsKeepReachable(s: State)
    requires Reachable(s)
    ensures Reachable(RequestReviewOf(s)) && Reachable(ApproveOf(s)) && Reachable(RejectOf(s))
  {
  }

  /** The text is shown exactly when the post is published. */
  lemma ContentOnlyWhenPublished(s: State, text: string)
    ensures s.Published? ==> ContentOf(s, text) == text
    ensures !s.Published? ==> ContentOf(s, text) == ""
  {
  }

  /** Requesting review from a draft and approving twice publishes; rejecting
      in between restarts the count. */
  lemma TwoApprovalsPublish()
    ensures ApproveOf(ApproveOf(RequestReviewOf(Draft))) == Published
    ensures ApproveOf(RequestReviewOf(Draft)) == PendingReview(1)
    ensures ApproveOf(RequestReviewOf(RejectOf(ApproveOf(RequestReviewOf(Draft))))) == PendingReview(1)
  {
  }

  // ---------------------------------------------------------------------
  // Histories of calls.

  datatype Call = AddText(text: string) | RequestReview | Approve | Reject

  function Step(s: State, c: Call): State {
    match c
    case AddText(_) => s
    case RequestReview => RequestReviewOf(s)
    case Approve => ApproveOf(s)
    case Reject => RejectOf(s)
  }

  function After(s: State, calls: seq<Call>): State
    decreases |calls|
  {
    if calls == [] then s else After(Step(s, calls[0]), calls[1..])
  }

  function Approvals(calls: seq<Call>): nat
    decreases |calls|
  {
    if calls == [] then 0 else (if calls[0] == Approve then 1 else 0) + Approvals(calls[1..])
  }

  /** How many approvals a post in state `s` still needs to be published. */
  function Needed(s: State): int {
    match s
    case Draft => 2
    case PendingReview(t) => 2 - t
    case Published => 0
  }

  /** A post is never published with fewer approvals than it still needs:
      from a fresh draft, publication takes at least two `approve` calls. */
  lemma {:induction false} PublishingNeedsApprovals(s: State, calls: seq<Call>)
    requires Reachable(s)
    requires After(s, calls).Published?
    ensures Approvals(calls) >= Needed(s)
    decreases |calls|
  {
    if calls != [] {
      TransitionsKeepReachable(s);
      PublishingNeedsApprovals(Step(s, calls[0]), calls[1..]);
    }
  }

  /** Once published, a post stays published whatever is called. */
  lemma {:induction false} PublishedAbsorbs(calls: seq<Call>)
    ensures After(Published, calls) == Published
    decreases |calls|
  {
    if calls != [] {
      PublishedAbsorbs(calls[1..]);
    }
  }

  // ---------------------------------------------------------------------
  // The post.

  class Post {
    var state: State
    var content: string

    predicate Valid()
      reads this
    {
      Reachable(state)
    }

    /** A new post is an empty draft. */
    constructor()
      ensures Valid() && state == Draft && content == ""
    {
      state := Draft;
      content := "";
    }

    /** `add_text` appends in every state. */
    method AddText(text: string)
      requires Valid()
      modifies this
      ensures Valid() && content == old(content) + text && state == old(state)
    {
      content := content + text;
    }

    function Content(): string
      reads this
    {
      ContentOf(state, content)
    }

    method RequestReview()
      requires Valid()
      modifies this
      ensures Valid() && state == RequestReviewOf(old(state)) && content == old(content)
    {
      state := RequestReviewOf(state);
    }

    method Approve()
      requires Valid()
      modifies this
      ensures Valid() && state == ApproveOf(old(state)) && content == old(content)
    {
      state := ApproveOf(state);
    }

    method Reject()
      requires Valid()
      modifies this
      ensures Valid() && state == RejectOf(old(state)) && content == old(content)
    {
      state := RejectOf(state);
    }
  }

  /** The chapter's scenario: add text, review, reject, review, approve twice;
      the text shows only after the second approval. */
  method Scenario(text: string) returns (seen: seq<string>)
    ensures seen == ["", "", "", "", text]
  {
    var post := new Post();
    post.AddText(text);
    assert post.content == text;
    seen := [post.Content()];
    post.RequestReview();
    seen := seen + [post.Content()];
    post.Reject();
    seen := seen + [post.Content()];
    post.RequestReview();
    seen := seen + [post.Content()];
    assert post.state == PendingReview(0);
    post.Approve();
    post.Approve();
    assert post.state == Published && post.content == text;
    seen := seen + [post.Content()];
  }

  // ---------------------------------------------------------------------
  // One type per state.

  /** A post that can only be read once published. */
  datatype PublishedPost = PublishedPost(content: string)

  datatype PendingReviewPost = PendingReviewPost(content: string)
  {
    function Approve(): (p: PublishedPost)
      ensures p.content == content
    {
      PublishedPost(content)
    }
  }

  class DraftPost {
    var content: string

    /** `Post::new` gives an empty draft. */
    constructor()
      ensures content == ""
    {
      content := "";
    }

    method AddText(text: string)
      modifies this
      ensures content == old(content) + text
    {
      content := content + text;
    }

    function RequestReview(): (p: PendingReviewPost)
      reads this
      ensures p.content == content
    {
      PendingReviewPost(content)
    }
  }

  /** The typed scenario: the text added to the draft is what the published
      post shows. */
  method TypedScenario(text: string) returns (shown: string)
    ensures shown == text
  {
    var draft := new DraftPost();
    draft.AddText(text);
    var pending := draft.RequestReview();
    var post := pending.Approve();
    shown := post.content;
  }
}
