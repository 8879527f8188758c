/** The wallet diff of accounts/keystore/keystore.go, and the sorted list in
    accounts/manager.go that its events are replayed on. */
module Wallets {
  import opened Accounts

  /** A wallet object around one account. */
  class Wallet {
    const account: Account

    constructor (account: Account)
      ensures this.account == account
    {
      this.account := account;
    }
  }

  datatype Event = Arrived(wallet: Wallet) | Dropped(wallet: Wallet)

  function AccountsOf(ws: seq<Wallet>): (accs: seq<Account>)
    ensures |accs| == |ws| && forall i {:trigger accs[i]} {:trigger ws[i]} :: 0 <= i < |ws| ==> accs[i] == ws[i].account
  {
    seq(|ws|, i requires 0 <= i < |ws| => ws[i].account)
  }

  ghost predicate Ascending(ws: seq<Wallet>)
  {
    forall i, j :: 0 <= i < j < |ws| ==> Below(ws[i].account.url, ws[j].account.url)
  }

  ghost function Elems(ws: seq<Wallet>): set<Wallet>
  {
    set w | w in ws
  }

  // ----- the manager's list -----

  /** The first place not before a URL. */
  ghost function PlaceOf(ws: seq<Wallet>, u: Url): (n: nat)
    ensures n <= |ws| && forall i :: 0 <= i < n ==> Below(ws[i].account.url, u)
    ensures n < |ws| ==> !Below(ws[n].account.url, u)
  {
    Place(AccountsOf(ws), u)
  }

  ghost function Inserted(ws: seq<Wallet>, w: Wallet): seq<Wallet>
  {
    var n := PlaceOf(ws, w.account.url);
    ws[..n] + [w] + ws[n..]
  }

  ghost function Removed(ws: seq<Wallet>, w: Wallet): seq<Wallet>
  {
    var n := PlaceOf(ws, w.account.url);
    if n == |ws| then ws else ws[..n] + ws[n + 1..]
  }

  ghost function Applied(ws: seq<Wallet>, e: Event): seq<Wallet>
  {
    match e
    case Arrived(w) => Inserted(ws, w)
    case Dropped(w) => Removed(ws, w)
  }

  ghost function Replayed(ws: seq<Wallet>, es: seq<Event>): seq<Wallet>
  {
    if es == [] then ws else Applied(Replayed(ws, es[..|es| - 1]), es[|es| - 1])
  }

  method Merge(slice: seq<Wallet>, wallet: Wallet) returns (r: seq<Wallet>)
    requires InOrder(AccountsOf(slice))
    ensures r == Inserted(slice, wallet)
  {
    var n := FindPlace(AccountsOf(slice), wallet.account.url);
    if n == |slice| {
      return slice + [wallet];
    }
    return slice[..n] + ([wallet] + slice[n..]);
  }

  method Drop(slice: seq<Wallet>, wallet: Wallet) returns (r: seq<Wallet>)
    requires InOrder(AccountsOf(slice))
    ensures r == Removed(slice, wallet)
  {
    var n := FindPlace(AccountsOf(slice), wallet.account.url);
    if n == |slice| {
      return slice;
    }
    return slice[..n] + slice[n + 1..];
  }

  lemma AppliedInOrder(ws: seq<Wallet>, e: Event)
    requires InOrder(AccountsOf(ws))
    ensures InOrder(AccountsOf(Applied(ws, e)))
  {
    var accs, w := AccountsOf(ws), e.wallet;
    var n := PlaceOf(ws, w.account.url);
    if e.Arrived? {
      PlaceKeepsOrder(accs, n, w.account);
      assert AccountsOf(ws[..n] + [w] + ws[n..]) == accs[..n] + [w.account] + accs[n..];
    } else if n < |ws| {
      RemoveInOrder(accs, n);
      assert AccountsOf(ws[..n] + ws[n + 1..]) == accs[..n] + accs[n + 1..];
    }
  }

  class Manager {
    var wallets: seq<Wallet>

    /** The wallet-event case of update. */
    method Update(e: Event)
      requires InOrder(AccountsOf(wallets))
      modifies this
      ensures InOrder(AccountsOf(wallets)) && wallets == Applied(old(wallets), e)
    {
      AppliedInOrder(wallets, e);
      match e
      case Arrived(w) => wallets := Merge(wallets, w);
      case Dropped(w) => wallets := Drop(wallets, w);
    }

    /** Its loop, over the events of one refresh. */
    method Follow(es: seq<Event>)
      requires InOrder(AccountsOf(wallets))
      modifies this
      ensures InOrder(AccountsOf(wallets)) && wallets == Replayed(old(wallets), es)
    {
      for i := 0 to |es|
        invariant InOrder(AccountsOf(wallets)) && wallets == Replayed(old(wallets), es[..i])
      {
        assert es[..i + 1][..i] == es[..i];
        Update(es[i]);
      }
      assert es[..|es|] == es;
    }
  }

  /** A wallet with a new URL is added where it belongs, and nothing else changes. */
  lemma InsertedIsAscending(ws: seq<Wallet>, w: Wallet)
    requires Ascending(ws) && forall x :: x in ws ==> x.account.url != w.account.url
    ensures Ascending(Inserted(ws, w)) && Elems(Inserted(ws, w)) == Elems(ws) + {w}
  {
    var n := PlaceOf(ws, w.account.url);
    forall i | n <= i < |ws|
      ensures Below(w.account.url, ws[i].account.url)
    {
      CmpIsOrder(w.account.url, ws[n].account.url);
      if i > n { BelowTrans(w.account.url, ws[n].account.url, ws[i].account.url); }
    }
  }

  /** A wallet in the list is the one removed. */
  lemma RemovedIsAscending(ws: seq<Wallet>, w: Wallet)
    requires Ascending(ws) && w in ws
    ensures Ascending(Removed(ws, w)) && Elems(Removed(ws, w)) == Elems(ws) - {w}
  {
  }

  /** Ascending lists with the same wallets are the same list. */
  lemma {:induction false} AscendingIsUnique(vs: seq<Wallet>, ws: seq<Wallet>)
    requires Ascending(vs) && Ascending(ws) && Elems(vs) == Elems(ws)
    ensures vs == ws
    decreases |vs|
  {
    assert forall w :: w in Elems(vs) <==> w in vs;
    assert forall w :: w in Elems(ws) <==> w in ws;
    if vs != [] { HasFirst(vs); }
    if ws != [] { HasFirst(ws); }
    if vs == [] || ws == [] {
    } else {
      FirstIsLeast(vs, ws[0]);
      FirstIsLeast(ws, vs[0]);
      CmpIsOrder(vs[0].account.url, ws[0].account.url);
      assert vs[0] == ws[0];
      RestOf(vs);
      RestOf(ws);
      AscendingIsUnique(vs[1..], ws[1..]);
    }
  }

  lemma HasFirst(vs: seq<Wallet>)
    requires vs != []
    ensures vs[0] in Elems(vs)
  {
  }

  lemma FirstIsLeast(vs: seq<Wallet>, w: Wallet)
    requires Ascending(vs) && w in vs
    ensures w == vs[0] || Below(vs[0].account.url, w.account.url)
  {
  }

  lemma RestOf(vs: seq<Wallet>)
    requires Ascending(vs) && vs != []
    ensures Ascending(vs[1..]) && Elems(vs[1..]) == Elems(vs) - {vs[0]}
  {
  }

  // ----- the diff -----

  /** An old wallet has the account's URL but another account. */
  ghost predicate Conflicts(old_: seq<Wallet>, a: Account)
  {
    exists w :: w in old_ && w.account.url == a.url && w.account != a
  }

  ghost function WithoutConflict(old_: seq<Wallet>, accs: seq<Account>): seq<Account>
  {
    if accs == [] then []
    else
      var a := accs[|accs| - 1];
      WithoutConflict(old_, accs[..|accs| - 1]) + if Conflicts(old_, a) then [] else [a]
  }

  /** How far the loop has come: `done` is built, `rest` is left of the old. */
  ghost predicate Diffed(old_: seq<Wallet>, accs: seq<Account>, i: nat, done: seq<Wallet>, rest: seq<Wallet>)
    requires i <= |accs|
  {
    && |rest| <= |old_| && rest == old_[|old_| - |rest|..]
    && AccountsOf(done) == WithoutConflict(old_, accs[..i])
    && (forall w :: w in old_ && w.account in accs[..i] ==> w in done)
    && (forall k, q :: 0 <= k < |old_| - |rest| && i <= q < |accs| ==> Below(old_[k].account.url, accs[q].url))
    && (forall k, q :: 0 <= k < |rest| && 0 <= q < i ==> !Below(rest[k].account.url, accs[q].url))
    && (forall d, k :: d in done && 0 <= k < |rest| ==> Below(d.account.url, rest[k].account.url))
    && (forall d, q :: d in done && i <= q < |accs| ==> Below(d.account.url, accs[q].url))
  }

  lemma DropStep(old_: seq<Wallet>, accs: seq<Account>, i: nat, done: seq<Wallet>, rest: seq<Wallet>)
    requires Ascending(old_) && AscendingAccounts(accs) && i < |accs| && Diffed(old_, accs, i, done, rest)
    requires rest != [] && Below(rest[0].account.url, accs[i].url)
    ensures Diffed(old_, accs, i, done, rest[1..])
  {
    forall q | i <= q < |accs|
      ensures Below(rest[0].account.url, accs[q].url)
    {
      if q > i { BelowTrans(rest[0].account.url, accs[i].url, accs[q].url); }
    }
    assert rest[0] == old_[|old_| - |rest|];
  }

  /** Where the account's URL can still be found in the old list. */
  lemma OnlyFirst(old_: seq<Wallet>, accs: seq<Account>, i: nat, done: seq<Wallet>, rest: seq<Wallet>, w: Wallet)
    requires Ascending(old_) && i < |accs| && Diffed(old_, accs, i, done, rest)
    requires rest != [] ==> !Below(rest[0].account.url, accs[i].url)
    requires w in old_ && w.account.url == accs[i].url
    ensures rest != [] && w == rest[0]
  {
  }

  /** What the next account does to the accounts kept. */
  lemma NextKept(old_: seq<Wallet>, accs: seq<Account>, i: nat)
    requires i < |accs|
    ensures WithoutConflict(old_, accs[..i + 1]) ==
            WithoutConflict(old_, accs[..i]) + if Conflicts(old_, accs[i]) then [] else [accs[i]]
  {
    assert accs[..i + 1][..i] == accs[..i];
  }

  lemma ArriveStep(old_: seq<Wallet>, accs: seq<Account>, i: nat, done: seq<Wallet>, rest: seq<Wallet>, w: Wallet)
    requires Ascending(old_) && AscendingAccounts(accs) && i < |accs| && Diffed(old_, accs, i, done, rest)
    requires w.account == accs[i] && (rest != [] ==> Below(accs[i].url, rest[0].account.url))
    ensures Diffed(old_, accs, i + 1, done + [w], rest)
    ensures forall x :: x in done || x in rest ==> x.account.url != w.account.url
  {
    if rest != [] { CmpIsOrder(rest[0].account.url, accs[i].url); }
    forall x | x in old_ && x.account.url == accs[i].url
      ensures false
    {
      OnlyFirst(old_, accs, i, done, rest, x);
    }
    NextKept(old_, accs, i);
    CmpIsOrder(w.account.url, w.account.url);
    forall k | 0 <= k < |rest|
      ensures Below(w.account.url, rest[k].account.url)
    {
      if k > 0 { BelowTrans(w.account.url, rest[0].account.url, rest[k].account.url); }
    }
    forall k | 0 <= k < |rest|
      ensures !Below(rest[k].account.url, w.account.url) && rest[k].account.url != w.account.url
    {
      CmpIsOrder(rest[k].account.url, w.account.url);
    }
  }

  lemma KeepStep(old_: seq<Wallet>, accs: seq<Account>, i: nat, done: seq<Wallet>, rest: seq<Wallet>)
    requires Ascending(old_) && AscendingAccounts(accs) && i < |accs| && Diffed(old_, accs, i, done, rest)
    requires rest != [] && rest[0].account == accs[i]
    ensures Diffed(old_, accs, i + 1, done + [rest[0]], rest[1..])
  {
    var w := rest[0];
    CmpIsOrder(w.account.url, accs[i].url);
    forall x | x in old_ && x.account.url == accs[i].url
      ensures x == w
    {
      OnlyFirst(old_, accs, i, done, rest, x);
    }
    NextKept(old_, accs, i);
    assert w == old_[|old_| - |rest|];
    forall k | 1 <= k < |rest|
      ensures !Below(rest[k].account.url, accs[i].url)
    {
      CmpIsOrder(rest[k].account.url, w.account.url);
    }
  }

  lemma SkipStep(old_: seq<Wallet>, accs: seq<Account>, i: nat, done: seq<Wallet>, rest: seq<Wallet>)
    requires Ascending(old_) && AscendingAccounts(accs) && i < |accs| && Diffed(old_, accs, i, done, rest)
    requires rest != [] && rest[0].account.url == accs[i].url && rest[0].account != accs[i]
    ensures Diffed(old_, accs, i + 1, done, rest)
  {
    var w := rest[0];
    CmpIsOrder(w.account.url, accs[i].url);
    assert w in old_;
    forall x | x in old_ && x.account.url == accs[i].url
      ensures x == w
    {
      OnlyFirst(old_, accs, i, done, rest, x);
    }
    NextKept(old_, accs, i);
    forall k | 0 <= k < |rest|
      ensures !Below(rest[k].account.url, accs[i].url)
    {
      if k > 0 { CmpIsOrder(rest[k].account.url, w.account.url); }
    }
  }

  /** The manager's list after the events so far: the wallets of other backends,
      the new ones and the old ones not yet passed. */
  ghost predicate Mirrors(list: seq<Wallet>, others: set<Wallet>, done: seq<Wallet>, rest: seq<Wallet>)
  {
    Ascending(list) && Elems(list) == others + Elems(done) + Elems(rest) && others !! Elems(rest)
  }

  /** The events so far are the changes: a wallet dropped is an old one passed and not
      kept, one that arrived is new, and no wallet has two. */
  ghost predicate AreChanges(es: seq<Event>, old_: seq<Wallet>, done: seq<Wallet>, rest: seq<Wallet>)
  {
    && |rest| <= |old_|
    && (forall e :: e in es && e.Dropped? ==> e.wallet in old_[..|old_| - |rest|] && e.wallet !in done)
    && (forall e :: e in es && e.Arrived? ==> e.wallet in done && e.wallet !in old_)
    && (forall i, j :: 0 <= i < j < |es| ==> es[i].wallet != es[j].wallet)
  }

  lemma ChangeDrop(es: seq<Event>, old_: seq<Wallet>, done: seq<Wallet>, rest: seq<Wallet>)
    requires Ascending(old_) && AreChanges(es, old_, done, rest) && rest != [] && rest == old_[|old_| - |rest|..]
    requires forall d, k :: d in done && 0 <= k < |rest| ==> Below(d.account.url, rest[k].account.url)
    ensures AreChanges(es + [Dropped(rest[0])], old_, done, rest[1..])
  {
    var n, w := |old_| - |rest|, rest[0];
    CmpIsOrder(w.account.url, w.account.url);
    assert w == old_[n] && w !in done;
    assert old_[..n + 1] == old_[..n] + [w];
    NewInFront(old_, n);
    forall e | e in es
      ensures e.wallet != w
    {
    }
  }

  lemma NewInFront(old_: seq<Wallet>, n: nat)
    requires Ascending(old_) && n < |old_|
    ensures old_[n] !in old_[..n]
  {
    CmpIsOrder(old_[n].account.url, old_[n].account.url);
  }

  lemma ChangeArrive(es: seq<Event>, old_: seq<Wallet>, done: seq<Wallet>, rest: seq<Wallet>, w: Wallet)
    requires AreChanges(es, old_, done, rest) && w !in old_ && w !in done
    ensures AreChanges(es + [Arrived(w)], old_, done + [w], rest)
  {
    forall e | e in es
      ensures e.wallet != w
    {
    }
  }

  lemma ChangeKeep(es: seq<Event>, old_: seq<Wallet>, done: seq<Wallet>, rest: seq<Wallet>)
    requires Ascending(old_) && AreChanges(es, old_, done, rest) && rest != [] && rest == old_[|old_| - |rest|..]
    ensures AreChanges(es, old_, done + [rest[0]], rest[1..])
  {
    var n := |old_| - |rest|;
    NewInFront(old_, n);
    assert old_[..n + 1] == old_[..n] + [rest[0]];
  }

  lemma MirrorDrop(listed: seq<Wallet>, es: seq<Event>, others: set<Wallet>, done: seq<Wallet>, rest: seq<Wallet>)
    requires Mirrors(Replayed(listed, es), others, done, rest) && rest != [] && Ascending(rest)
    requires forall d :: d in done ==> Below(d.account.url, rest[0].account.url)
    ensures Mirrors(Replayed(listed, es + [Dropped(rest[0])]), others, done, rest[1..])
  {
    var w := rest[0];
    CmpIsOrder(w.account.url, w.account.url);
    HasFirst(rest);
    assert w in Elems(Replayed(listed, es));
    RemovedIsAscending(Replayed(listed, es), w);
    RestOf(rest);
    assert (es + [Dropped(w)])[..|es|] == es;
    assert w !in Elems(done);
  }

  /** A wallet in front of the next account is dropped. */
  lemma DropOne(listed: seq<Wallet>, es: seq<Event>, others: set<Wallet>, old_: seq<Wallet>, accs: seq<Account>, i: nat,
                done: seq<Wallet>, rest: seq<Wallet>)
    requires Ascending(old_) && AscendingAccounts(accs) && i < |accs| && rest != []
    ensures && Diffed(old_, accs, i, done, rest) && Mirrors(Replayed(listed, es), others, done, rest)
            && AreChanges(es, old_, done, rest) && Below(rest[0].account.url, accs[i].url) ==>
              && Diffed(old_, accs, i, done, rest[1..])
              && Mirrors(Replayed(listed, es + [Dropped(rest[0])]), others, done, rest[1..])
              && AreChanges(es + [Dropped(rest[0])], old_, done, rest[1..])
  {
    if && Diffed(old_, accs, i, done, rest) && Mirrors(Replayed(listed, es), others, done, rest)
       && AreChanges(es, old_, done, rest) && Below(rest[0].account.url, accs[i].url) {
      ChangeDrop(es, old_, done, rest);
      MirrorDrop(listed, es, others, done, rest);
      DropStep(old_, accs, i, done, rest);
    }
  }

  lemma MirrorArrive(listed: seq<Wallet>, es: seq<Event>, others: set<Wallet>, done: seq<Wallet>, rest: seq<Wallet>,
                     w: Wallet)
    requires Mirrors(Replayed(listed, es), others, done, rest)
    requires forall x :: x in others || x in done || x in rest ==> x.account.url != w.account.url
    ensures Mirrors(Replayed(listed, es + [Arrived(w)]), others, done + [w], rest)
  {
    forall x | x in Replayed(listed, es)
      ensures x.account.url != w.account.url
    {
      assert x in Elems(Replayed(listed, es));
    }
    InsertedIsAscending(Replayed(listed, es), w);
    assert (es + [Arrived(w)])[..|es|] == es;
  }

  lemma DiffEnds(old_: seq<Wallet>, accs: seq<Account>, done: seq<Wallet>, rest: seq<Wallet>)
    requires Ascending(old_) && Diffed(old_, accs, |accs|, done, rest)
    ensures Ascending(rest) && AccountsOf(done) == WithoutConflict(old_, accs)
    ensures forall w :: w in old_ && w.account in accs ==> w in done
    ensures forall d, k :: d in done && 0 <= k < |rest| ==> Below(d.account.url, rest[k].account.url)
  {
    assert accs[..|accs|] == accs;
  }

  class KeyStore {
    var wallets: seq<Wallet>

    /** The wallets in front of the account are dropped. */
    method DropBefore(accs: seq<Account>, i: nat, es: seq<Event>, ghost old_: seq<Wallet>, ghost done: seq<Wallet>,
                      ghost listed: seq<Wallet>, ghost others: set<Wallet>) returns (events: seq<Event>)
      requires Ascending(old_) && AscendingAccounts(accs) && i < |accs| && Diffed(old_, accs, i, done, wallets)
      requires Mirrors(Replayed(listed, es), others, done, wallets) && AreChanges(es, old_, done, wallets)
      modifies this
      ensures Diffed(old_, accs, i, done, wallets) && Mirrors(Replayed(listed, events), others, done, wallets)
      ensures AreChanges(events, old_, done, wallets)
      ensures wallets != [] ==> !Below(wallets[0].account.url, accs[i].url)
    {
      events := es;
      while |wallets| > 0 && Cmp(wallets[0].account.url, accs[i].url) < 0
        invariant Diffed(old_, accs, i, done, wallets) && Mirrors(Replayed(listed, events), others, done, wallets)
        invariant AreChanges(events, old_, done, wallets)
        decreases |wallets|
      {
        DropOne(listed, events, others, old_, accs, i, done, wallets);
        events := events + [Dropped(wallets[0])];
        wallets := wallets[1..];
      }
    }

    /** One account: a new wallet, the old one, or none if the URL conflicts. */
    method TakeAccount(accs: seq<Account>, i: nat, es: seq<Event>, done: seq<Wallet>, ghost old_: seq<Wallet>,
                       ghost listed: seq<Wallet>, ghost others: set<Wallet>)
      returns (events: seq<Event>, new_: seq<Wallet>)
      requires Ascending(old_) && AscendingAccounts(accs) && i < |accs| && Diffed(old_, accs, i, done, wallets)
      requires wallets != [] ==> !Below(wallets[0].account.url, accs[i].url)
      requires Mirrors(Replayed(listed, es), others, done, wallets) && AreChanges(es, old_, done, wallets)
      requires forall w :: w in others ==> w.account.url != accs[i].url
      modifies this
      ensures Diffed(old_, accs, i + 1, new_, wallets) && Mirrors(Replayed(listed, events), others, new_, wallets)
      ensures AreChanges(events, old_, new_, wallets)
      ensures forall w :: w in new_ ==> w in done || w in old_ || fresh(w)
    {
      events, new_ := es, done;
      var account := accs[i];
      if wallets != [] { CmpIsOrder(wallets[0].account.url, account.url); }
      if |wallets| == 0 || Cmp(wallets[0].account.url, account.url) > 0 {
        var wallet := new Wallet(account);
        ArriveStep(old_, accs, i, done, wallets, wallet);
        MirrorArrive(listed, es, others, done, wallets, wallet);
        ChangeArrive(es, old_, done, wallets, wallet);
        events := es + [Arrived(wallet)];
        new_ := done + [wallet];
      } else if wallets[0].account == account {
        KeepStep(old_, accs, i, done, wallets);
        ChangeKeep(es, old_, done, wallets);
        assert wallets[0] == old_[|old_| - |wallets|];
        new_ := done + [wallets[0]];
        wallets := wallets[1..];
      } else {
        SkipStep(old_, accs, i, done, wallets);
      }
    }

    /** The wallets left over are dropped. */
    method DropLeftover(es: seq<Event>, ghost old_: seq<Wallet>, ghost done: seq<Wallet>, ghost listed: seq<Wallet>,
                        ghost others: set<Wallet>)
      returns (events: seq<Event>)
      requires Mirrors(Replayed(listed, es), others, done, wallets) && Ascending(wallets)
      requires Ascending(old_) && AreChanges(es, old_, done, wallets) && wallets == old_[|old_| - |wallets|..]
      requires forall d, k :: d in done && 0 <= k < |wallets| ==> Below(d.account.url, wallets[k].account.url)
      ensures Mirrors(Replayed(listed, events), others, done, []) && AreChanges(events, old_, done, [])
    {
      events := es;
      assert wallets[0..] == wallets;
      for k := 0 to |wallets|
        invariant Mirrors(Replayed(listed, events), others, done, wallets[k..])
        invariant AreChanges(events, old_, done, wallets[k..])
      {
        assert wallets[k..] == old_[|old_| - |wallets[k..]|..];
        ChangeDrop(events, old_, done, wallets[k..]);
        MirrorDrop(listed, events, others, done, wallets[k..]);
        assert wallets[k..][1..] == wallets[k + 1..];
        events := events + [Dropped(wallets[k])];
      }
      assert wallets[|wallets|..] == [];
    }

    /** refreshWallets, against the list `listed` of a manager that follows it. */
    method RefreshWallets(accs: seq<Account>, ghost listed: seq<Wallet>) returns (events: seq<Event>)
      requires AscendingAccounts(accs) && Ascending(wallets) && Ascending(listed) && Elems(wallets) <= Elems(listed)
      requires forall w, a :: w in Elems(listed) - Elems(wallets) && a in accs ==> w.account.url != a.url
      modifies this
      ensures AccountsOf(wallets) == WithoutConflict(old(wallets), accs)
      ensures forall w :: w in old(wallets) && w.account in accs ==> w in wallets
      ensures forall w :: w in wallets ==> w in old(wallets) || fresh(w)
      ensures forall e :: e in events ==>
                if e.Dropped? then e.wallet in old(wallets) && e.wallet !in wallets
                else e.wallet in wallets && e.wallet !in old(wallets)
      ensures forall i, j :: 0 <= i < j < |events| ==> events[i].wallet != events[j].wallet
      ensures Ascending(Replayed(listed, events))
      ensures Elems(Replayed(listed, events)) == Elems(listed) - Elems(old(wallets)) + Elems(wallets)
      ensures listed == old(wallets) ==> Replayed(listed, events) == wallets
    {
      events := [];
      var new_: seq<Wallet> := [];
      ghost var old_, others := wallets, Elems(listed) - Elems(wallets);
      for i := 0 to |accs|
        invariant Diffed(old_, accs, i, new_, wallets) && Mirrors(Replayed(listed, events), others, new_, wallets)
        invariant AreChanges(events, old_, new_, wallets)
        invariant forall w :: w in new_ ==> w in old_ || fresh(w)
      {
        events := DropBefore(accs, i, events, old_, new_, listed, others);
        events, new_ := TakeAccount(accs, i, events, new_, old_, listed, others);
      }
      DiffEnds(old_, accs, new_, wallets);
      events := DropLeftover(events, old_, new_, listed, others);
      assert old_[..|old_| - 0] == old_;
      wallets := new_;
      MirrorEnds(Replayed(listed, events), listed, old_, new_, accs);
    }
  }

  lemma MirrorEnds(list: seq<Wallet>, listed: seq<Wallet>, old_: seq<Wallet>, new_: seq<Wallet>, accs: seq<Account>)
    requires Mirrors(list, Elems(listed) - Elems(old_), new_, [])
    requires AccountsOf(new_) == WithoutConflict(old_, accs) && AscendingAccounts(accs)
    ensures Elems(list) == Elems(listed) - Elems(old_) + Elems(new_)
    ensures listed == old_ ==> list == new_
  {
    if listed == old_ {
      KeptAscend(old_, accs);
      assert forall i :: 0 <= i < |new_| ==> AccountsOf(new_)[i] == new_[i].account;
      AscendingIsUnique(list, new_);
    }
  }

  lemma {:induction false} KeptAscend(old_: seq<Wallet>, accs: seq<Account>)
    requires AscendingAccounts(accs)
    ensures AscendingAccounts(WithoutConflict(old_, accs))
    ensures forall a :: a in WithoutConflict(old_, accs) <==> a in accs && !Conflicts(old_, a)
  {
    if accs == [] {
    } else {
      var n := |accs| - 1;
      KeptAscend(old_, accs[..n]);
      assert accs == accs[..n] + [accs[n]];
      forall a | a in WithoutConflict(old_, accs[..n])
        ensures Below(a.url, accs[n].url)
      {
        var j :| 0 <= j < n && accs[..n][j] == a;
      }
    }
  }

  /** One wallet per account, in order, exactly when no old wallet's URL names
      another account now. */
  lemma {:induction false} OneWalletEach(old_: seq<Wallet>, accs: seq<Account>)
    ensures WithoutConflict(old_, accs) == accs <==> forall a :: a in accs ==> !Conflicts(old_, a)
    ensures |WithoutConflict(old_, accs)| <= |accs|
  {
    if accs == [] {
    } else {
      var n := |accs| - 1;
      OneWalletEach(old_, accs[..n]);
      assert accs == accs[..n] + [accs[n]];
    }
  }

  /** It can happen: a key file replaced by another leaves no wallet for it. */
  lemma ReplacedFileHasNoWallet(w: Wallet, a: Account)
    requires w.account.url == a.url && w.account.address != a.address
    ensures Ascending([w]) && AscendingAccounts([a]) && WithoutConflict([w], [a]) == []
  {
    assert w in [w];
  }
}
