/**
  The betting ledger `user_data` (main_final.py:230, 280-367): one entry per
  user id with a balance and the username cached when the entry was made.
  `/balance` and `/baccarat` create entries lazily, `/add` credits an entry
  found by username, and a baccarat round debits the stakes and credits
  the returns.
 */
module Wagering {
  import opened Wrappers
  import Text
  import opened Bets
  import opened Baccarat

  datatype Entry = Entry(balance: int, username: string)

  /** The balance of a new entry. */
  const InitialBalance := 1000

  /**
    The balance after one round on `balance`, or `None` when the round is
    refused: nothing was wagered, or the stakes exceed the balance.
   */
  function RoundBalance(balance: int, bets: BetMap, player: Hand, banker: Hand): (r: Option<int>)
    requires |player| >= 2 && |banker| >= 2 && Positive(bets)
    ensures r.None? <==> bets == map[] || TotalStake(bets) > balance
    ensures r.Some? ==> balance - TotalStake(bets) <= r.value <= balance + 20 * TotalStake(bets)
    ensures r.Some? ==> r.value >= 0
  {
    if bets == map[] || TotalStake(bets) > balance then None
    else
      Some(balance - TotalStake(bets) + Payout(bets, player, banker))
  }

  /** The username a mention's text names: the text without its leading `@`. */
  function MentionName(mention: string): (name: string)
    ensures mention != [] ==> mention == [mention[0]] + name
    ensures mention == [] ==> name == []
  {
    if mention == [] then [] else mention[1..]
  }

  /**
    `uid` is the first id, in creation order, whose entry carries the
    username `name`.
   */
  ghost predicate IsFirstNamed(order: seq<int>, entries: map<int, Entry>, name: string, uid: int) {
    exists i :: 0 <= i < |order| && order[i] == uid && uid in entries && entries[uid].username == name
                && forall j :: 0 <= j < i ==> order[j] in entries && entries[order[j]].username != name
  }

  /** At most one id is the first with a given username. */
  lemma FirstNamedUnique(order: seq<int>, entries: map<int, Entry>, name: string, u1: int, u2: int)
    requires IsFirstNamed(order, entries, name, u1) && IsFirstNamed(order, entries, name, u2)
    ensures u1 == u2
  {
    var i1 :| 0 <= i1 < |order| && order[i1] == u1 && u1 in entries && entries[u1].username == name
              && forall j :: 0 <= j < i1 ==> order[j] in entries && entries[order[j]].username != name;
    var i2 :| 0 <= i2 < |order| && order[i2] == u2 && u2 in entries && entries[u2].username == name
              && forall j :: 0 <= j < i2 ==> order[j] in entries && entries[order[j]].username != name;
  }

  /** Worked examples of a round: a winning round and a refused one. */
  lemma RoundExamples(player: Hand, banker: Hand)
    requires |player| >= 2 && |banker| >= 2
    ensures RoundBalance(1000, map[Player := 100, Small := 50], [2, 3], [1, 2]) == Some(1175)
    ensures RoundBalance(50, map[Banker := 100], player, banker) == None
  {
    PlayerAndSmallExample();
    SingleKind(Banker, 100, player, banker);
  }

  /** What a round reports; `balance` is the balance it leaves. */
  datatype RoundReply =
    | NoBets(balance: int)
    | Insufficient(total: int, balance: int)
    | Played(player: Hand, banker: Hand, winner: Outcome, payout: int, balance: int)

  /** The report of a round on `balance`: the refusal, or the deal, payout and new balance. */
  function RoundReplyFor(balance: int, bets: BetMap, player: Hand, banker: Hand): (r: RoundReply)
    requires |player| >= 2 && |banker| >= 2 && Positive(bets)
    ensures r.Played? <==> RoundBalance(balance, bets, player, banker).Some?
    ensures r.balance == match RoundBalance(balance, bets, player, banker)
                         case Some(after) => after
                         case None => balance
  {
    if bets == map[] then NoBets(balance)
    else if TotalStake(bets) > balance then Insufficient(TotalStake(bets), balance)
    else Played(player, banker, Resolve(player, banker), Payout(bets, player, banker),
                balance - TotalStake(bets) + Payout(bets, player, banker))
  }

  datatype CreditReply =
    | NotAdmin
    | BadFormat
    | Failed
    | NotFound(username: string)
    | Credited(uid: int, username: string, amount: int)

  class Ledger {
    /** The one identity allowed to use `/add`. */
    const admin: int
    var entries: map<int, Entry>
    /** The ids in the order their entries were made: the iteration order of the ledger. */
    var order: seq<int>

    ghost predicate Valid()
      reads this
    {
      && (forall i, j :: 0 <= i < j < |order| ==> order[i] != order[j])
      && (forall id :: id in entries ==> id in order)
      && (forall i :: 0 <= i < |order| ==> order[i] in entries)
    }

    /** The balance `uid` holds once its entry exists. */
    function BalanceOf(uid: int): int
      reads this
    {
      if uid in entries then entries[uid].balance else InitialBalance
    }

    constructor (admin: int)
      ensures Valid() && this.admin == admin
      ensures entries == map[] && order == []
    {
      this.admin := admin;
      entries := map[];
      order := [];
    }

    /**
      Makes the entry of `uid` with balance 1000 and the given username
      when there is none; an existing entry, username included, is kept.
     */
    method EnsureEntry(uid: int, username: string)
      requires Valid()
      modifies this
      ensures Valid() && uid in entries
      ensures uid in old(entries) ==> entries == old(entries) && order == old(order)
      ensures uid !in old(entries) ==>
                entries == old(entries)[uid := Entry(InitialBalance, username)] && order == old(order) + [uid]
    {
      if uid !in entries {
        entries := entries[uid := Entry(InitialBalance, username)];
        order := order + [uid];
      }
    }

    /** `/balance`: the caller's balance, after making the entry if need be. */
    method Balance(uid: int, username: string) returns (balance: int)
      requires Valid()
      modifies this
      ensures Valid() && uid in entries
      ensures uid in old(entries) ==> entries == old(entries) && order == old(order)
      ensures uid !in old(entries) ==>
                entries == old(entries)[uid := Entry(InitialBalance, username)] && order == old(order) + [uid]
      ensures balance == old(BalanceOf(uid))
    {
      EnsureEntry(uid, username);
      balance := entries[uid].balance;
    }

    /** The linear scan of `/add`: the first entry, in creation order, with the username. */
    method FindByUsername(name: string) returns (found: Option<int>)
      requires Valid()
      ensures found.None? <==> forall id :: id in entries ==> entries[id].username != name
      ensures found.Some? ==> IsFirstNamed(order, entries, name, found.value)
    {
      var i := 0;
      while i < |order|
        invariant 0 <= i <= |order|
        invariant forall j :: 0 <= j < i ==> order[j] in entries && entries[order[j]].username != name
      {
        if entries[order[i]].username == name {
          ghost var hit := order[i];
          assert hit in entries && entries[hit].username == name;
          return Some(order[i]);
        }
        i := i + 1;
      }
      return None;
    }

    /**
      `/add @name amount`: only the admin may use it; the text must split
      into exactly three words; the mention must be there and the last
      word must read as an integer (otherwise the error reply); then the
      signed amount is added to the first entry carrying the username, and
      when none does no balance changes.
     */
    method Credit(caller: int, text: string, mention: Option<string>) returns (reply: CreditReply)
      requires Valid()
      modifies this
      ensures Valid() && order == old(order) && entries.Keys == old(entries).Keys
      ensures caller != admin ==> reply == NotAdmin
      ensures caller == admin && |Text.Split(text)| != 3 ==> reply == BadFormat
      ensures (caller == admin && |Text.Split(text)| == 3
               && (mention.None? || Text.ParseInt(Text.Split(text)[2]).None?)) ==> reply == Failed
      ensures (caller == admin && |Text.Split(text)| == 3 && mention.Some?
               && Text.ParseInt(Text.Split(text)[2]).Some?) ==>
                && (reply.NotFound? || reply.Credited?)
                && (reply.Credited? <==> exists id :: id in old(entries) && old(entries)[id].username == MentionName(mention.value))
      ensures reply.NotFound? ==>
                reply.username == MentionName(mention.value)
                && forall id :: id in old(entries) ==> old(entries)[id].username != reply.username
      ensures reply.Credited? ==>
                && caller == admin
                && reply.username == MentionName(mention.value)
                && Text.ParseInt(Text.Split(text)[2]) == Some(reply.amount)
                && IsFirstNamed(old(order), old(entries), reply.username, reply.uid)
                && entries == old(entries)[reply.uid := old(entries)[reply.uid].(balance := old(entries)[reply.uid].balance + reply.amount)]
      ensures !reply.Credited? ==> entries == old(entries)
    {
      if caller != admin {
        return NotAdmin;
      }
      var parts := Text.Split(text);
      if |parts| != 3 {
        return BadFormat;
      }
      if mention.None? {
        return Failed;
      }
      var username := MentionName(mention.value);
      var amount := Text.ParseInt(parts[2]);
      if amount.None? {
        return Failed;
      }
      var found := FindByUsername(username);
      if found.None? {
        return NotFound(username);
      }
      var uid := found.value;
      entries := entries[uid := entries[uid].(balance := entries[uid].balance + amount.value)];
      reply := Credited(uid, username, amount.value);
    }

    /**
      `/baccarat ...`: makes the caller's entry if need be, parses the
      wager, refuses an empty one or one whose stakes exceed the balance,
      and otherwise deals the given cards, debits the total stake and
      credits the payout.
     */
    method Settle(uid: int, username: string, text: string, c0: int, c1: int, c2: int, c3: int)
      returns (reply: RoundReply)
      requires Valid()
      requires IsCard(c0) && IsCard(c1) && IsCard(c2) && IsCard(c3)
      modifies this
      ensures Valid() && uid in entries
      ensures order == if uid in old(entries) then old(order) else old(order) + [uid]
      ensures var hands := DealCards(c0, c1, c2, c3);
              var made := if uid in old(entries) then old(entries) else old(entries)[uid := Entry(InitialBalance, username)];
              && reply == RoundReplyFor(made[uid].balance, ParseBets(text), hands.0, hands.1)
              && entries == made[uid := made[uid].(balance := reply.balance)]
    {
      EnsureEntry(uid, username);
      var bets := ParseBets(text);
      var (player, banker) := DealCards(c0, c1, c2, c3);
      reply := SettleBets(uid, bets, player, banker);
    }

    /**
      The body of `/baccarat` once the entry exists: validation, then the
      debit of the total stake and the credit of the payout.
     */
    method SettleBets(uid: int, bets: BetMap, player: Hand, banker: Hand) returns (reply: RoundReply)
      requires Valid() && uid in entries && Positive(bets)
      requires |player| >= 2 && |banker| >= 2
      modifies this
      ensures Valid() && order == old(order)
      ensures reply == RoundReplyFor(old(entries)[uid].balance, bets, player, banker)
      ensures entries == old(entries)[uid := old(entries)[uid].(balance := reply.balance)]
    {
      var balance := entries[uid].balance;
      if bets == map[] {
        return NoBets(balance);
      }
      var total := TotalStake(bets);
      if total > balance {
        return Insufficient(total, balance);
      }
      var winner := Resolve(player, banker);
      var payout := ComputePayout(bets, player, banker);
      var entry := entries[uid];
      entries := entries[uid := entry.(balance := entry.balance - total)];
      entries := entries[uid := entries[uid].(balance := entries[uid].balance + payout)];
      reply := Played(player, banker, winner, payout, entries[uid].balance);
    }
  }
}
