/**
 * The voting page (src/components/Vote.js): a balance of vote credits and
 * the list of stories to vote on. A vote spends one credit and adds one vote
 * to the chosen story; buying a pack adds the pack's votes to the balance.
 */
module VoteLedger {
  import opened StoryRecord

  /** A pack on sale: `votes` credits for `price` dollars. */
  datatype VotePack = VotePack(id: string, name: string, votes: nat, price: nat)

  const BasicPack := VotePack("basic", "Basic Pack", 10, 5)
  const StandardPack := VotePack("standard", "Standard Pack", 25, 10)
  const PremiumPack := VotePack("premium", "Premium Pack", 50, 18)
  const PackOptions := [BasicPack, StandardPack, PremiumPack]

  /** A story on the voting page; `hasVoted` is set on the page once the user votes for it. */
  datatype Entry = Entry(story: Story, hasVoted: bool)

  /** The outcome of the last pack purchase shown on the page. */
  datatype PurchaseStatus = NoStatus | Loading | Succeeded | Failed

  /** The amount a pack is charged at, in cents. */
  function ChargeCents(pack: VotePack): (cents: nat)
    ensures cents / 100 == pack.price && cents % 100 == 0
  {
    pack.price * 100
  }

  /** The vote button is enabled: the story is not voted yet and a credit is left. */
  predicate VoteEnabled(e: Entry, credits: int) {
    !e.hasVoted && credits > 0
  }

  /** The `map` that records a vote: every entry with the voted id gains a vote and is marked. */
  function CastVote(entries: seq<Entry>, storyId: int): (r: seq<Entry>)
    ensures |r| == |entries|
    ensures forall i :: 0 <= i < |r| && entries[i].story.id == storyId ==>
              && r[i].hasVoted
              && r[i].story.votes == entries[i].story.votes + 1
              && r[i].story.(votes := entries[i].story.votes) == entries[i].story
    ensures forall i :: 0 <= i < |r| && entries[i].story.id != storyId ==> r[i] == entries[i]
  {
    seq(|entries|, i requires 0 <= i < |entries| =>
      if entries[i].story.id == storyId
      then Entry(entries[i].story.(votes := entries[i].story.votes + 1), true)
      else entries[i])
  }

  /** The votes of all listed stories together. */
  function TotalVotes(entries: seq<Entry>): int {
    if entries == [] then 0 else entries[0].story.votes + TotalVotes(entries[1..])
  }

  /** How many entries carry the id `storyId`. */
  function Occurrences(entries: seq<Entry>, storyId: int): (n: nat)
    ensures n <= |entries|
  {
    if entries == [] then 0
    else (if entries[0].story.id == storyId then 1 else 0) + Occurrences(entries[1..], storyId)
  }

  predicate UniqueIds(entries: seq<Entry>) {
    forall i, j :: 0 <= i < j < |entries| ==> entries[i].story.id != entries[j].story.id
  }

  /** Recording a vote adds one vote per entry with that id, and no other vote. */
  lemma {:induction false} CastVoteTotal(entries: seq<Entry>, storyId: int)
    ensures TotalVotes(CastVote(entries, storyId)) == TotalVotes(entries) + Occurrences(entries, storyId)
    decreases |entries|
  {
    if entries != [] {
      assert CastVote(entries, storyId)[1..] == CastVote(entries[1..], storyId);
      CastVoteTotal(entries[1..], storyId);
    }
  }

  lemma {:induction false} UniqueOccursOnce(entries: seq<Entry>, k: nat)
    requires UniqueIds(entries) && k < |entries|
    ensures Occurrences(entries, entries[k].story.id) == 1
    decreases |entries|
  {
    if k == 0 {
      AbsentOccursNever(entries[1..], entries[0].story.id);
    } else {
      UniqueOccursOnce(entries[1..], k - 1);
    }
  }

  lemma {:induction false} AbsentOccursNever(entries: seq<Entry>, storyId: int)
    requires forall i :: 0 <= i < |entries| ==> entries[i].story.id != storyId
    ensures Occurrences(entries, storyId) == 0
    decreases |entries|
  {
    if entries != [] {
      AbsentOccursNever(entries[1..], storyId);
    }
  }

  /**
   * With distinct ids, a vote for the story at `k` raises exactly its count by
   * one and marks it; the list keeps its length and order, and every other
   * entry is unchanged. The total rises by exactly one.
   */
  lemma CastVoteOnUniqueIds(entries: seq<Entry>, k: nat)
    requires UniqueIds(entries) && k < |entries|
    ensures var r := CastVote(entries, entries[k].story.id);
            && |r| == |entries|
            && r[k].story.votes == entries[k].story.votes + 1
            && r[k].hasVoted
            && (forall i :: 0 <= i < |r| && i != k ==> r[i] == entries[i])
            && TotalVotes(r) == TotalVotes(entries) + 1
  {
    CastVoteTotal(entries, entries[k].story.id);
    UniqueOccursOnce(entries, k);
  }

  /** A vote for an id that is not listed changes no story (the credit is still spent). */
  lemma CastVoteOnAbsentId(entries: seq<Entry>, storyId: int)
    requires forall i :: 0 <= i < |entries| ==> entries[i].story.id != storyId
    ensures CastVote(entries, storyId) == entries
  {
  }

  /** The voting page's state. */
  class VotePage {
    var credits: int
    var entries: seq<Entry>
    var purchaseStatus: PurchaseStatus
    /** The vote counts as loaded, before any vote on this page. */
    ghost var loadedVotes: seq<int>

    /** The balance is never negative. */
    ghost predicate Valid()
      reads this
    {
      credits >= 0
    }

    /**
     * Every story has gained one vote if it is marked voted and none
     * otherwise, and entries sharing an id are marked alike: each story has
     * been voted for at most once.
     */
    ghost predicate VotedAtMostOnce()
      reads this
    {
      && |loadedVotes| == |entries|
      && (forall i :: 0 <= i < |entries| ==>
            entries[i].story.votes == loadedVotes[i] + (if entries[i].hasVoted then 1 else 0))
      && (forall i, j :: 0 <= i < |entries| && 0 <= j < |entries| && entries[i].story.id == entries[j].story.id ==>
            entries[i].hasVoted == entries[j].hasVoted)
    }

    constructor (initialCredits: nat)
      ensures Valid() && VotedAtMostOnce()
      ensures credits == initialCredits && entries == [] && purchaseStatus == NoStatus
    {
      credits := initialCredits;
      entries := [];
      purchaseStatus := NoStatus;
      loadedVotes := [];
    }

    /** `loadStories`: the fetched stories replace the list, none of them voted. */
    method LoadStories(fetched: seq<Story>)
      requires Valid()
      modifies this
      ensures Valid() && VotedAtMostOnce()
      ensures credits == old(credits) && purchaseStatus == old(purchaseStatus)
      ensures |entries| == |fetched|
      ensures forall i :: 0 <= i < |fetched| ==> entries[i] == Entry(fetched[i], false)
    {
      entries := seq(|fetched|, i requires 0 <= i < |fetched| => Entry(fetched[i], false));
      loadedVotes := seq(|fetched|, i requires 0 <= i < |fetched| => fetched[i].votes);
    }

    /**
     * `handleVote`: refused without credits; otherwise spends one credit and
     * records the vote for every entry with that id.
     */
    method HandleVote(storyId: int) returns (accepted: bool)
      requires Valid()
      modifies this
      ensures Valid()
      ensures accepted <==> old(credits) > 0
      ensures accepted ==> credits == old(credits) - 1 && entries == CastVote(old(entries), storyId)
      ensures !accepted ==> credits == old(credits) && entries == old(entries)
      ensures purchaseStatus == old(purchaseStatus) && loadedVotes == old(loadedVotes)
    {
      if credits <= 0 {
        return false;
      }
      credits := credits - 1;
      entries := CastVote(entries, storyId);
      accepted := true;
    }

    /** The vote button of entry `i`: a disabled button does nothing. */
    method ClickVote(i: nat) returns (accepted: bool)
      requires Valid() && i < |entries|
      modifies this
      ensures Valid()
      ensures accepted <==> VoteEnabled(old(entries[i]), old(credits))
      ensures accepted ==> credits == old(credits) - 1 && entries == CastVote(old(entries), old(entries[i].story.id))
      ensures !accepted ==> credits == old(credits) && entries == old(entries)
      ensures purchaseStatus == old(purchaseStatus)
      ensures old(VotedAtMostOnce()) ==> VotedAtMostOnce()
    {
      if !VoteEnabled(entries[i], credits) {
        return false;
      }
      ghost var before := entries;
      accepted := HandleVote(entries[i].story.id);
      assert forall k :: 0 <= k < |before| && before[k].story.id == before[i].story.id ==>
               entries[k].story.votes == before[k].story.votes + 1 && entries[k].hasVoted;
    }

    /**
     * `purchaseVotePack`: charges `pack.price * 100` cents; when the payment
     * goes through, the pack's votes are added to the balance.
     */
    method PurchaseVotePack(pack: VotePack, paymentAccepted: bool) returns (chargedCents: nat)
      requires Valid()
      modifies this
      ensures Valid()
      ensures chargedCents == ChargeCents(pack)
      ensures credits == old(credits) + (if paymentAccepted then pack.votes else 0)
      ensures purchaseStatus == (if paymentAccepted then Succeeded else Failed)
      ensures entries == old(entries) && loadedVotes == old(loadedVotes)
    {
      purchaseStatus := Loading;
      chargedCents := ChargeCents(pack);
      if paymentAccepted {
        credits := credits + pack.votes;
        purchaseStatus := Succeeded;
      } else {
        purchaseStatus := Failed;
      }
    }
  }
}
