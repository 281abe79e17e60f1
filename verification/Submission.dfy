// Which of the mined nonces of a block are forwarded: only ever better ones.
module Submission {
  import opened Wrappers
  import opened Words
  import opened Mining

  datatype Mode = Pool | Wallet

  datatype Offer = Offer(account: string, quality: U64)

  datatype ChainAccount = ChainAccount(account: string, targetQuality: Option<U64>)

  datatype Nonce = Nonce(account: string, generationSignature: string, rawQuality: U64)

  // ----- the filter as a function of what has been received -----

  // In pool mode an account competes with itself, in wallet mode all accounts compete.
  predicate Competes(mode: Mode, x: string, y: string) {
    mode == Wallet || x == y
  }

  // The last quality forwarded in competition with an account.
  function Last(forwarded: seq<Offer>, mode: Mode, account: string): U64 {
    if |forwarded| == 0 then MAX_U64
    else
      var last := forwarded[|forwarded| - 1];
      if Competes(mode, last.account, account) then last.quality else Last(forwarded[..|forwarded| - 1], mode, account)
  }

  function TargetOf(targets: map<string, U64>, account: string): U64 {
    if account in targets then targets[account] else MAX_U64
  }

  function Forwarded(received: seq<Offer>, mode: Mode, targets: map<string, U64>): seq<Offer> {
    if |received| == 0 then []
    else
      var n := |received| - 1;
      var before, o := Forwarded(received[..n], mode, targets), received[n];
      if o.quality < Last(before, mode, o.account) && o.quality < TargetOf(targets, o.account)
      then before + [o] else before
  }

  predicate Beats(o: Offer, mode: Mode, targets: map<string, U64>, account: string) {
    Competes(mode, o.account, account) && o.quality < TargetOf(targets, o.account)
  }

  // The lowest quality among the received ones that beat the target of their own account.
  ghost predicate IsLeast(q: U64, received: seq<Offer>, mode: Mode, targets: map<string, U64>, account: string) {
    && (forall o :: o in received && Beats(o, mode, targets, account) ==> q <= o.quality)
    && (q == MAX_U64 || exists o :: o in received && Beats(o, mode, targets, account) && o.quality == q)
  }

  lemma LastStep(forwarded: seq<Offer>, o: Offer, mode: Mode, account: string)
    ensures Last(forwarded + [o], mode, account)
         == if Competes(mode, o.account, account) then o.quality else Last(forwarded, mode, account)
  {
    assert (forwarded + [o])[..|forwarded|] == forwarded;
  }

  // Competing offers agree on what was forwarded last.
  lemma LastAgrees(forwarded: seq<Offer>, mode: Mode, x: string, y: string)
    requires Competes(mode, x, y)
    ensures Last(forwarded, mode, x) == Last(forwarded, mode, y)
  {
  }

  // The last quality forwarded is the lowest that was worth forwarding.
  lemma {:induction false} LastIsLeast(received: seq<Offer>, mode: Mode, targets: map<string, U64>, account: string)
    ensures IsLeast(Last(Forwarded(received, mode, targets), mode, account), received, mode, targets, account)
  {
    hide Last, Forwarded, TargetOf, Competes;
    if |received| == 0 {
      NothingYet(mode, targets, account);
    } else {
      var n := |received| - 1;
      var before, o := Forwarded(received[..n], mode, targets), received[n];
      assert received == received[..n] + [o];
      LastIsLeast(received[..n], mode, targets, account);
      FilterStep(received[..n], o, mode, targets, account);
      var q := Last(before, mode, account);
      if q < MAX_U64 {
        var x :| x in received[..n] && Beats(x, mode, targets, account) && x.quality == q;
        assert x in received;
      }
      assert o in received;
    }
  }

  lemma NothingYet(mode: Mode, targets: map<string, U64>, account: string)
    ensures Forwarded([], mode, targets) == [] && Last([], mode, account) == MAX_U64
  {
  }

  // What one more offer does to the last quality of the accounts it competes with, and of the others.
  lemma FilterStep(received: seq<Offer>, o: Offer, mode: Mode, targets: map<string, U64>, account: string)
    ensures var before, after := Forwarded(received, mode, targets), Forwarded(received + [o], mode, targets);
      && (Beats(o, mode, targets, account) && o.quality < Last(before, mode, account) ==>
            after == before + [o] && Last(after, mode, account) == o.quality)
      && (!(Beats(o, mode, targets, account) && o.quality < Last(before, mode, account)) ==>
            Last(after, mode, account) == Last(before, mode, account))
  {
    var before := Forwarded(received, mode, targets);
    assert (received + [o])[..|received|] == received;
    LastStep(before, o, mode, account);
    if Competes(mode, o.account, account) {
      LastAgrees(before, mode, o.account, account);
    }
  }

  ghost predicate Decreasing(forwarded: seq<Offer>, mode: Mode) {
    forall i, j :: 0 <= i < j < |forwarded| && Competes(mode, forwarded[i].account, forwarded[j].account) ==>
      forwarded[i].quality > forwarded[j].quality
  }

  // Nothing forwarded in competition with an account is lower than the last.
  ghost predicate LastIsLowest(forwarded: seq<Offer>, mode: Mode) {
    forall i, account :: 0 <= i < |forwarded| && Competes(mode, forwarded[i].account, account) ==>
      Last(forwarded, mode, account) <= forwarded[i].quality
  }

  // Within a block the forwarded qualities strictly decrease: per account for a pool, over all
  // accounts for a wallet.
  lemma {:induction false} ForwardedDecrease(received: seq<Offer>, mode: Mode, targets: map<string, U64>)
    ensures Decreasing(Forwarded(received, mode, targets), mode)
    ensures LastIsLowest(Forwarded(received, mode, targets), mode)
  {
    hide Last, TargetOf, Competes;
    if |received| > 0 {
      var n := |received| - 1;
      ForwardedDecrease(received[..n], mode, targets);
      var before, o := Forwarded(received[..n], mode, targets), received[n];
      if o.quality < Last(before, mode, o.account) && o.quality < TargetOf(targets, o.account) {
        OneMore(before, o, mode);
      }
    }
  }

  lemma OneMore(before: seq<Offer>, o: Offer, mode: Mode)
    requires Decreasing(before, mode) && LastIsLowest(before, mode) && o.quality < Last(before, mode, o.account)
    ensures Decreasing(before + [o], mode) && LastIsLowest(before + [o], mode)
  {
    hide Last;
    var after := before + [o];
    forall i, account | 0 <= i < |after| && Competes(mode, after[i].account, account)
      ensures Last(after, mode, account) <= after[i].quality
    {
      LastStep(before, o, mode, account);
      if i < |before| && Competes(mode, o.account, account) {
        assert Competes(mode, before[i].account, o.account);
      }
    }
    forall i, j | 0 <= i < j < |after| && Competes(mode, after[i].account, after[j].account)
      ensures after[i].quality > after[j].quality
    {
      assert i < |before| && after[i] == before[i];
    }
  }

  // Whatever order the nonces arrive in, the block ends with the same best quality forwarded.
  lemma OrderIrrelevant(x: seq<Offer>, y: seq<Offer>, mode: Mode, targets: map<string, U64>, account: string)
    requires multiset(x) == multiset(y)
    ensures Last(Forwarded(x, mode, targets), mode, account) == Last(Forwarded(y, mode, targets), mode, account)
  {
    LastIsLeast(x, mode, targets, account);
    LastIsLeast(y, mode, targets, account);
    forall o
      ensures o in x <==> o in y
    {
      assert o in multiset(x) <==> o in multiset(y);
    }
  }

  // ----- the state of a chain -----

  function LowerChar(c: char): char {
    if 'A' <= c <= 'Z' then (c as int + 32) as char else c
  }

  function ToLowercase(s: string): string {
    seq(|s|, i requires 0 <= i < |s| => LowerChar(s[i]))
  }

  const CAPITALS: string := "ABCDEFGHIJKLMNOPQRSTUVWXYZ"
  const SMALL: string := "abcdefghijklmnopqrstuvwxyz"

  // Capitals become their small letters, everything else stays.
  lemma LowercaseIs(s: string, i: nat, k: nat)
    requires i < |s| && k < 26
    ensures |CAPITALS| == |SMALL| == 26 && |ToLowercase(s)| == |s|
    ensures s[i] == CAPITALS[k] ==> ToLowercase(s)[i] == SMALL[k]
    ensures s[i] !in CAPITALS ==> ToLowercase(s)[i] == s[i]
  {
    var n := s[i] as int - 'A' as int;
    if 0 <= n < 26 {
      assert CAPITALS[n] == s[i];
    }
    assert CAPITALS[k] == ('A' as int + k) as char && SMALL[k] == ('a' as int + k) as char;
  }

  lemma QuotientFits(x: nat, y: nat)
    requires y > 0
    ensures 0 <= x / y <= x
  {
    assert x == x / y * y + x % y;
    MulMono(1, y, x / y);
  }

  // The quality in whole base targets.
  function Adjusted(rawQuality: U64, baseTarget: U64): (q: U64)
    ensures baseTarget == 0 ==> q == MAX_U64
    ensures baseTarget > 0 ==> q * baseTarget <= rawQuality < q * baseTarget + baseTarget
  {
    if baseTarget == 0 then MAX_U64
    else
      QuotientFits(rawQuality, baseTarget);
      DivParts(rawQuality, baseTarget);
      rawQuality / baseTarget
  }

  function OrMax(x: Option<U64>): U64 {
    if x.Some? then x.value else MAX_U64
  }

  // The configured target of the first entry for an account.
  function AccountTarget(accounts: seq<ChainAccount>, account: string): U64 {
    if |accounts| == 0 then MAX_U64
    else if accounts[0].account == account then OrMax(accounts[0].targetQuality)
    else AccountTarget(accounts[1..], account)
  }

  function EffectiveTarget(info: MiningInfo, chainTarget: Option<U64>, accounts: seq<ChainAccount>,
                           account: string): U64 {
    Min(Min(AccountTarget(accounts, account), OrMax(chainTarget)), OrMax(info.targetQuality))
  }

  // The targets that apply to an account: that of the first entry for it, the chain's and the block's.
  ghost predicate Applies(t: U64, info: MiningInfo, chainTarget: Option<U64>, accounts: seq<ChainAccount>,
                          account: string) {
    || info.targetQuality == Some(t)
    || chainTarget == Some(t)
    || exists i: nat :: FirstEntry(accounts, account, i) && accounts[i].targetQuality == Some(t)
  }

  ghost predicate FirstEntry(accounts: seq<ChainAccount>, account: string, i: nat) {
    && i < |accounts| && accounts[i].account == account
    && forall k :: 0 <= k < i ==> accounts[k].account != account
  }

  lemma {:induction false} FirstTarget(accounts: seq<ChainAccount>, account: string)
    ensures forall i: nat :: FirstEntry(accounts, account, i) ==>
      AccountTarget(accounts, account) == OrMax(accounts[i].targetQuality)
    ensures AccountTarget(accounts, account) == MAX_U64 || exists i: nat :: FirstEntry(accounts, account, i)
  {
    if |accounts| > 0 {
      if accounts[0].account == account {
        assert FirstEntry(accounts, account, 0);
        assert forall i: nat :: FirstEntry(accounts, account, i) ==> i == 0;
      } else {
        FirstTarget(accounts[1..], account);
        forall i: nat | FirstEntry(accounts, account, i)
          ensures AccountTarget(accounts, account) == OrMax(accounts[i].targetQuality)
        {
          assert FirstEntry(accounts[1..], account, i - 1) by { Shifted(accounts, account, i); }
        }
        if i: nat :| FirstEntry(accounts[1..], account, i) {
          Unshifted(accounts, account, i);
        }
      }
    }
  }

  lemma Shifted(accounts: seq<ChainAccount>, account: string, i: nat)
    requires FirstEntry(accounts, account, i) && i > 0
    ensures FirstEntry(accounts[1..], account, i - 1)
  {
    forall k | 0 <= k < i - 1
      ensures accounts[1..][k].account != account
    {
      assert accounts[1..][k] == accounts[k + 1];
    }
  }

  lemma Unshifted(accounts: seq<ChainAccount>, account: string, i: nat)
    requires |accounts| > 0 && accounts[0].account != account && FirstEntry(accounts[1..], account, i)
    ensures FirstEntry(accounts, account, i + 1)
  {
    forall k | 0 <= k < i + 1
      ensures accounts[k].account != account
    {
      assert k > 0 ==> accounts[k] == accounts[1..][k - 1];
    }
  }

  // The effective target is the least that applies, and the maximum if none does.
  lemma TargetIsLeast(info: MiningInfo, chainTarget: Option<U64>, accounts: seq<ChainAccount>, account: string)
    ensures var q := EffectiveTarget(info, chainTarget, accounts, account);
            && (forall t: U64 :: Applies(t, info, chainTarget, accounts, account) ==> q <= t)
            && (q == MAX_U64 || Applies(q, info, chainTarget, accounts, account))
  {
    hide AccountTarget, FirstEntry;
    FirstTarget(accounts, account);
  }

  class ChainState {
    var generationSignature: string
    var baseTarget: U64
    var best: map<string, U64>
    var targets: map<string, U64>
    var block: nat
    var mode: Mode
    ghost var received: seq<Offer>
    ghost var forwarded: seq<Offer>

    // What is stored for each account is what was last forwarded for it.
    ghost predicate Valid()
      reads this
    {
      && forwarded == Forwarded(received, mode, targets)
      && (forall a :: a in best ==> best[a] == Last(forwarded, Pool, a))
      && (forall i :: 0 <= i < |forwarded| ==> forwarded[i].account in best)
    }

    constructor ()
      ensures Valid() && received == []
    {
      generationSignature, baseTarget, best, targets, block, mode := "", 0, map[], map[], 0, Pool;
      received, forwarded := [], [];
    }

    // A new block: everything starts over, with the targets that apply from now on.
    method UpdateMiningInfo(info: MiningInfo, chainTarget: Option<U64>, accounts: seq<ChainAccount>,
                            known: seq<string>, submissionMode: Mode)
      requires Valid()
      modifies this
      ensures Valid() && received == [] && forwarded == []
      ensures generationSignature == info.generationSignature && baseTarget == info.baseTarget
      ensures mode == submissionMode && block == old(block) + 1
      ensures best.Keys == old(best.Keys) && forall a :: a in best ==> best[a] == MAX_U64
      ensures forall a :: a in known ==> TargetOf(targets, a) == EffectiveTarget(info, chainTarget, accounts, a)
      ensures forall a :: a !in known ==> TargetOf(targets, a) == old(TargetOf(targets, a))
    {
      hide AccountTarget, EffectiveTarget;
      generationSignature, baseTarget, mode := info.generationSignature, info.baseTarget, submissionMode;
      best := map a | a in best :: MAX_U64;
      received, forwarded := [], [];
      var updated: map<string, U64> := targets;
      for n := 0 to |known|
        invariant forall a :: a in known[..n] ==>
          TargetOf(updated, a) == EffectiveTarget(info, chainTarget, accounts, a)
        invariant forall a :: a !in known[..n] ==> TargetOf(updated, a) == TargetOf(targets, a)
      {
        updated := updated[known[n] := EffectiveTarget(info, chainTarget, accounts, known[n])];
        assert known[..n + 1] == known[..n] + [known[n]];
      }
      assert known[..|known|] == known;
      targets := updated;
      block := block + 1;
    }

    // The lowest stored quality.
    method BestOverall() returns (q: U64)
      ensures q <= MAX_U64 && forall a :: a in best ==> q <= best[a]
      ensures q == MAX_U64 || exists a :: a in best && best[a] == q
    {
      q := MAX_U64;
      var rest := best.Keys;
      while rest != {}
        invariant rest <= best.Keys && q <= MAX_U64
        invariant forall a :: a in best && a !in rest ==> q <= best[a]
        invariant q == MAX_U64 || exists a :: a in best && best[a] == q
      {
        var a :| a in rest;
        q := Min(q, best[a]);
        rest := rest - {a};
      }
    }

    // One nonce from the hashers. A nonce for another block changes nothing; the others are
    // forwarded or not, as the filter says.
    method Submit(nonce: Nonce) returns (forward: bool)
      requires Valid()
      modifies this`best, this`received, this`forwarded
      ensures Valid()
      ensures ToLowercase(generationSignature) != nonce.generationSignature ==>
        !forward && received == old(received) && best == old(best)
      ensures ToLowercase(generationSignature) == nonce.generationSignature ==>
        received == old(received) + [Offer(nonce.account, Adjusted(nonce.rawQuality, baseTarget))]
      ensures forwarded == old(forwarded)
        + if forward then [Offer(nonce.account, Adjusted(nonce.rawQuality, baseTarget))] else []
    {
      hide Last, Forwarded, ToLowercase, Adjusted;
      forward := false;
      if ToLowercase(generationSignature) == nonce.generationSignature {
        var adjusted := Adjusted(nonce.rawQuality, baseTarget);
        var bestQuality := MAX_U64;
        if mode == Wallet {
          bestQuality := BestOverall();
        } else if nonce.account in best {
          bestQuality := best[nonce.account];
        }
        CompetingBest(this, bestQuality, nonce.account);
        var target := if nonce.account in targets then targets[nonce.account] else MAX_U64;
        ghost var o := Offer(nonce.account, adjusted);
        ForwardedStep(received, o, mode, targets);
        received := received + [o];
        if adjusted < bestQuality && adjusted < target {
          Stored(best, forwarded, o);
          best := best[nonce.account := adjusted];
          forwarded := forwarded + [o];
          forward := true;
        }
      }
    }
  }

  lemma ForwardedStep(received: seq<Offer>, o: Offer, mode: Mode, targets: map<string, U64>)
    ensures var before := Forwarded(received, mode, targets);
      Forwarded(received + [o], mode, targets)
      == if o.quality < Last(before, mode, o.account) && o.quality < TargetOf(targets, o.account)
         then before + [o] else before
  {
    assert (received + [o])[..|received|] == received;
  }

  lemma Stored(best: map<string, U64>, forwarded: seq<Offer>, o: Offer)
    requires forall a :: a in best ==> best[a] == Last(forwarded, Pool, a)
    requires forall i :: 0 <= i < |forwarded| ==> forwarded[i].account in best
    ensures var now := best[o.account := o.quality];
      && (forall a :: a in now ==> now[a] == Last(forwarded + [o], Pool, a))
      && forall i :: 0 <= i < |forwarded + [o]| ==> (forwarded + [o])[i].account in now
  {
    hide Last;
    var now := best[o.account := o.quality];
    forall a | a in now
      ensures now[a] == Last(forwarded + [o], Pool, a)
    {
      LastStep(forwarded, o, Pool, a);
    }
  }

  // What the state looks up is the last quality forwarded in competition with the account.
  lemma CompetingBest(s: ChainState, q: U64, account: string)
    requires s.Valid()
    requires s.mode == Pool ==> q == if account in s.best then s.best[account] else MAX_U64
    requires s.mode == Wallet ==>
      (forall a :: a in s.best ==> q <= s.best[a]) && (q == MAX_U64 || exists a :: a in s.best && s.best[a] == q)
    ensures q == Last(s.forwarded, s.mode, account)
  {
    hide Last, Forwarded;
    if s.mode == Wallet {
      WalletBest(s, q, account);
    } else if account !in s.best {
      NeverForwarded(s.forwarded, account);
    }
  }

  lemma NeverForwarded(forwarded: seq<Offer>, account: string)
    requires forall i :: 0 <= i < |forwarded| ==> forwarded[i].account != account
    ensures Last(forwarded, Pool, account) == MAX_U64
  {
  }

  // In wallet mode the lowest stored quality is the last one forwarded.
  lemma WalletBest(s: ChainState, q: U64, account: string)
    requires s.Valid() && s.mode == Wallet
    requires q <= MAX_U64 && (forall a :: a in s.best ==> q <= s.best[a])
        && (q == MAX_U64 || exists a :: a in s.best && s.best[a] == q)
    ensures q == Last(s.forwarded, Wallet, account)
  {
    var f := s.forwarded;
    ForwardedDecrease(s.received, Wallet, s.targets);
    LastIsLeast(s.received, Wallet, s.targets, account);
    if |f| > 0 {
      var last := f[|f| - 1];
      assert Last(f, Pool, last.account) == last.quality == Last(f, Wallet, account);
      assert last.account in s.best;
      if q < MAX_U64 {
        var a :| a in s.best && s.best[a] == q;
        LastIsForwarded(f, a);
      }
    }
  }

  lemma LastIsForwarded(forwarded: seq<Offer>, account: string)
    ensures Last(forwarded, Pool, account) == MAX_U64
      || exists i :: 0 <= i < |forwarded| && forwarded[i].account == account
           && forwarded[i].quality == Last(forwarded, Pool, account)
  {
    if |forwarded| > 0 && forwarded[|forwarded| - 1].account != account {
      LastIsForwarded(forwarded[..|forwarded| - 1], account);
    }
  }
}
