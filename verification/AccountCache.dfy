/** The account cache of accounts/keystore/account_cache.go over the file cache
    of accounts/keystore/file_cache.go. */
module AccountCaches {
  import opened Common
  import opened Accounts

  const KEYSTORE_SCHEME := "keystore"
  const SEPARATOR := '/'
  const NO_ADDRESS: Address := 0

  // ----- the directory -----

  /** What a key file holds: its modification time and the address it decodes to. */
  datatype File = File(modified: int, address: Option<Address>)

  datatype DirEntry = DirEntry(path: string, isKeyFile: bool, info: Option<File>)

  /** The key files listed. */
  ghost function Listing(files: seq<DirEntry>): map<string, File>
    requires forall e :: e in files && e.isKeyFile ==> e.info.Some?
  {
    if files == [] then map[]
    else
      var e, rest := files[|files| - 1], Listing(files[..|files| - 1]);
      if e.isKeyFile then rest[e.path := e.info.value] else rest
  }

  /** Newest modification time, no earlier than the zero time. */
  ghost function Newest(files: seq<DirEntry>): int
    requires forall e :: e in files && e.isKeyFile ==> e.info.Some?
  {
    if files == [] then 0
    else
      var e, rest := files[|files| - 1], Newest(files[..|files| - 1]);
      if e.isKeyFile && e.info.value.modified > rest then e.info.value.modified else rest
  }

  /** The newest time is that of a key file, or the zero time, and none is newer. */
  lemma {:induction false} NewestIs(files: seq<DirEntry>)
    requires IsReadable(files)
    ensures Newest(files) >= 0 && forall e :: e in files && e.isKeyFile ==> e.info.value.modified <= Newest(files)
    ensures Newest(files) == 0 || exists e :: e in files && e.isKeyFile && e.info.value.modified == Newest(files)
  {
    if files == [] {
    } else {
      NewestIs(files[..|files| - 1]);
      assert files == files[..|files| - 1] + [files[|files| - 1]];
    }
  }

  /** A key file is listed as it was read, and nothing else is. */
  lemma {:induction false} ListingIs(files: seq<DirEntry>, p: string, f: File)
    requires IsReadable(files) && HasDistinctPaths(files)
    ensures p in Listing(files) && Listing(files)[p] == f <==> DirEntry(p, true, Some(f)) in files
  {
    if files == [] {
    } else {
      var n := |files| - 1;
      ListingIs(files[..n], p, f);
      PathIsNew(files, n);
      assert files == files[..n] + [files[n]];
    }
  }

  ghost predicate IsReadable(files: seq<DirEntry>)
  {
    forall e :: e in files && e.isKeyFile ==> e.info.Some?
  }

  ghost predicate HasDistinctPaths(files: seq<DirEntry>)
  {
    forall i, j :: 0 <= i < j < |files| ==> files[i].path != files[j].path
  }

  ghost function NewerThan(d: map<string, File>, time: int): set<string>
  {
    set p | p in d && d[p].modified > time
  }

  /** Paths listed are paths of entries. */
  lemma {:induction false} ListedPath(files: seq<DirEntry>, p: string)
    requires IsReadable(files) && p in Listing(files)
    ensures exists i :: 0 <= i < |files| && files[i].path == p
  {
    var n := |files| - 1;
    if files[n].path == p {
    } else {
      ListedPath(files[..n], p);
      var i :| 0 <= i < |files[..n]| && files[..n][i].path == p;
      assert files[i].path == p;
    }
  }

  lemma PathIsNew(files: seq<DirEntry>, i: nat)
    requires HasDistinctPaths(files) && i < |files| && IsReadable(files[..i])
    ensures files[i].path !in Listing(files[..i])
  {
    if files[i].path in Listing(files[..i]) {
      ListedPath(files[..i], files[i].path);
    }
  }

  /** What the loop of scan has gathered from the entries so far. */
  ghost predicate Scanned(files: seq<DirEntry>, time: int, current: set<string>, mods: set<string>, newest: int)
  {
    && IsReadable(files) && current == Listing(files).Keys
    && mods == NewerThan(Listing(files), time) && newest == Newest(files)
  }

  lemma ScanStep(files: seq<DirEntry>, i: nat, time: int, current: set<string>, mods: set<string>, newest: int)
    requires HasDistinctPaths(files) && i < |files| && Scanned(files[..i], time, current, mods, newest)
    requires files[i].isKeyFile ==> files[i].info.Some?
    ensures var e := files[i];
            if !e.isKeyFile then Scanned(files[..i + 1], time, current, mods, newest)
            else
              var m := e.info.value.modified;
              Scanned(files[..i + 1], time, current + {e.path}, if m > time then mods + {e.path} else mods,
                      if m > newest then m else newest)
  {
    assert files[..i + 1] == files[..i] + [files[i]] && files[..i + 1][..i] == files[..i];
    PathIsNew(files, i);
  }

  class FileCache {
    var all: set<string>
    var lastMod: int

    constructor ()
      ensures all == {} && lastMod == 0
    {
      all, lastMod := {}, 0;
    }

    /** scan: an unreadable directory or file changes nothing. */
    method Scan(listing: Option<seq<DirEntry>>)
      returns (ok: bool, creates: set<string>, deletes: set<string>, updates: set<string>)
      requires listing.Some? ==> HasDistinctPaths(listing.value)
      modifies this
      ensures ok <==> listing.Some? && IsReadable(listing.value)
      ensures !ok ==> all == old(all) && lastMod == old(lastMod)
      ensures ok ==>
                var d := Listing(listing.value);
                && creates == d.Keys - old(all) && deletes == old(all) - d.Keys
                && updates == NewerThan(d, old(lastMod)) - creates
                && all == d.Keys && lastMod == Newest(listing.value)
    {
      ok, creates, deletes, updates := false, {}, {}, {};
      if listing.None? {
        return;
      }
      var files := listing.value;
      var current: set<string>, mods: set<string> := {}, {};
      var newLastMod := 0;
      for i := 0 to |files|
        invariant !ok && all == old(all) && lastMod == old(lastMod)
        invariant Scanned(files[..i], lastMod, current, mods, newLastMod)
      {
        var fi := files[i];
        if !fi.isKeyFile {
          ScanStep(files, i, lastMod, current, mods, newLastMod);
          continue;
        }
        if fi.info.None? {
          assert fi in files;
          return;
        }
        ScanStep(files, i, lastMod, current, mods, newLastMod);
        current := current + {fi.path};
        var modified := fi.info.value.modified;
        if modified > lastMod {
          mods := mods + {fi.path};
        }
        if modified > newLastMod {
          newLastMod := modified;
        }
      }
      assert files[..|files|] == files;
      deletes := all - current;
      creates := current - all;
      updates := mods - creates;
      all, lastMod, ok := current, newLastMod, true;
    }
  }

  // ----- the cache -----

  ghost predicate HaveScheme(all: seq<Account>)
  {
    forall a :: a in all ==> a.url.scheme == KEYSTORE_SCHEME
  }

  /** The accounts of one address, in order. */
  ghost function Group(all: seq<Account>, addr: Address): seq<Account>
  {
    if all == [] then []
    else (if all[0].address == addr then [all[0]] else []) + Group(all[1..], addr)
  }

  /** The entry of one address holds its accounts, and there is none without. */
  ghost predicate IsPart(all: seq<Account>, byAddr: map<Address, seq<Account>>, addr: Address)
  {
    if addr in byAddr then byAddr[addr] != [] && multiset(byAddr[addr]) == multiset(Group(all, addr))
    else Group(all, addr) == []
  }

  ghost predicate IsPartition(all: seq<Account>, byAddr: map<Address, seq<Account>>)
  {
    forall addr :: IsPart(all, byAddr, addr)
  }

  lemma {:induction false} GroupOfSum(s: seq<Account>, t: seq<Account>, addr: Address)
    ensures Group(s + t, addr) == Group(s, addr) + Group(t, addr)
  {
    if s == [] {
      assert s + t == t;
    } else {
      assert (s + t)[1..] == s[1..] + t;
      GroupOfSum(s[1..], t, addr);
      Regroup(if s[0].address == addr then [s[0]] else [], Group(s[1..], addr), Group(t, addr));
    }
  }

  lemma Regroup(a: seq<Account>, b: seq<Account>, c: seq<Account>)
    ensures a + (b + c) == a + b + c
  {
  }

  /** One account more, anywhere. */
  lemma GroupWith(s: seq<Account>, a: Account, t: seq<Account>, addr: Address)
    ensures multiset(Group(s + [a] + t, addr)) ==
            multiset(Group(s + t, addr)) + if a.address == addr then multiset{a} else multiset{}
    ensures a.address != addr ==> Group(s + [a] + t, addr) == Group(s + t, addr)
  {
    GroupOfSum(s + [a], t, addr);
    GroupOfSum(s, [a], addr);
    GroupOfSum(s, t, addr);
    assert Group([a], addr) == if a.address == addr then [a] else [];
    assert Group(s, addr) + [] == Group(s, addr);
  }

  /** The list with one account more, unless it stands at its place. */
  ghost function Added(all: seq<Account>, a: Account): seq<Account>
  {
    var n := Place(all, a.url);
    if n < |all| && all[n] == a then all else all[..n] + [a] + all[n..]
  }

  /** The list without the first occurrence of an account. */
  ghost function WithoutFirst(s: seq<Account>, a: Account): seq<Account>
  {
    if s == [] then [] else if s[0] == a then s[1..] else [s[0]] + WithoutFirst(s[1..], a)
  }

  /** The list without the first account of a file. */
  ghost function WithoutPath(s: seq<Account>, path: string): seq<Account>
  {
    if s == [] then [] else if s[0].url.path == path then s[1..] else [s[0]] + WithoutPath(s[1..], path)
  }

  lemma {:induction false} WithoutFirstAt(s: seq<Account>, a: Account, i: nat)
    requires i < |s| && s[i] == a && a !in s[..i]
    ensures WithoutFirst(s, a) == s[..i] + s[i + 1..]
  {
    if i == 0 {
    } else {
      assert s[0] == s[..i][0];
      assert s[1..][..i - 1] == s[..i][1..];
      WithoutFirstAt(s[1..], a, i - 1);
    }
  }

  lemma {:induction false} WithoutFirstAbsent(s: seq<Account>, a: Account)
    requires a !in s
    ensures WithoutFirst(s, a) == s
  {
    if s == [] {
    } else {
      WithoutFirstAbsent(s[1..], a);
    }
  }

  lemma {:induction false} WithoutPathAt(s: seq<Account>, path: string, i: nat)
    requires i < |s| && s[i].url.path == path && forall k :: 0 <= k < i ==> s[k].url.path != path
    ensures WithoutPath(s, path) == s[..i] + s[i + 1..]
    decreases i
  {
    if i == 0 {
      assert s[..0] + s[1..] == s[1..];
    } else {
      assert forall k :: 0 <= k < i - 1 ==> s[1..][k] == s[k + 1];
      WithoutPathAt(s[1..], path, i - 1);
    }
  }

  lemma {:induction false} WithoutPathAbsent(s: seq<Account>, path: string)
    requires forall k :: 0 <= k < |s| ==> s[k].url.path != path
    ensures WithoutPath(s, path) == s
  {
    if s == [] {
    } else {
      WithoutPathAbsent(s[1..], path);
    }
  }

  /** removeAccount. */
  method RemoveAccount(slice: seq<Account>, elem: Account) returns (r: seq<Account>)
    ensures r == WithoutFirst(slice, elem)
  {
    for i := 0 to |slice|
      invariant elem !in slice[..i]
    {
      if slice[i] == elem {
        WithoutFirstAt(slice, elem, i);
        return slice[..i] + slice[i + 1..];
      }
    }
    assert slice[..|slice|] == slice;
    WithoutFirstAbsent(slice, elem);
    return slice;
  }

  // ----- order and partition are kept -----

  /** An account inserted anywhere is appended to its address' entry. */
  lemma InsertKeepsPartition(all: seq<Account>, byAddr: map<Address, seq<Account>>, n: nat, a: Account)
    requires IsPartition(all, byAddr) && n <= |all|
    ensures var part := if a.address in byAddr then byAddr[a.address] else [];
            IsPartition(all[..n] + [a] + all[n..], byAddr[a.address := part + [a]])
  {
    var part := if a.address in byAddr then byAddr[a.address] else [];
    var byAddr' := byAddr[a.address := part + [a]];
    assert all[..n] + all[n..] == all;
    forall addr
      ensures IsPart(all[..n] + [a] + all[n..], byAddr', addr)
    {
      assert IsPart(all, byAddr, addr);
      GroupWith(all[..n], a, all[n..], addr);
    }
  }

  lemma {:induction false} WithoutFirstMultiset(s: seq<Account>, a: Account)
    requires a in s
    ensures multiset(WithoutFirst(s, a)) == multiset(s) - multiset{a} && |WithoutFirst(s, a)| == |s| - 1
  {
    assert s == [s[0]] + s[1..];
    if s[0] == a {
    } else {
      WithoutFirstMultiset(s[1..], a);
    }
  }

  /** The map once an address' entry is replaced, or removed when empty. */
  function WithEntry(byAddr: map<Address, seq<Account>>, addr: Address, part: seq<Account>): map<Address, seq<Account>>
  {
    if part == [] then byAddr - {addr} else byAddr[addr := part]
  }

  lemma RemoveKeepsPartition(all: seq<Account>, byAddr: map<Address, seq<Account>>, n: nat)
    requires IsPartition(all, byAddr) && n < |all|
    ensures var a := all[n];
            && a.address in byAddr
            && IsPartition(all[..n] + all[n + 1..], WithEntry(byAddr, a.address, WithoutFirst(byAddr[a.address], a)))
  {
    var a := all[n];
    var all' := all[..n] + all[n + 1..];
    assert all == all[..n] + [a] + all[n + 1..];
    assert IsPart(all, byAddr, a.address);
    GroupWith(all[..n], a, all[n + 1..], a.address);
    assert a in multiset(byAddr[a.address]);
    PartWithout(all, all', byAddr, a);
    var byAddr' := WithEntry(byAddr, a.address, WithoutFirst(byAddr[a.address], a));
    forall addr: Address
      ensures IsPart(all', byAddr', addr)
    {
      if addr != a.address {
        assert IsPart(all, byAddr, addr);
        GroupWith(all[..n], a, all[n + 1..], addr);
      }
    }
  }

  lemma PartWithout(all: seq<Account>, all': seq<Account>, byAddr: map<Address, seq<Account>>, a: Account)
    requires a.address in byAddr && IsPart(all, byAddr, a.address) && a in byAddr[a.address]
    requires multiset(Group(all, a.address)) == multiset(Group(all', a.address)) + multiset{a}
    ensures IsPart(all', WithEntry(byAddr, a.address, WithoutFirst(byAddr[a.address], a)), a.address)
  {
    WithoutFirstMultiset(byAddr[a.address], a);
    var part := WithoutFirst(byAddr[a.address], a);
    assert multiset(part) == multiset(Group(all', a.address));
    assert |multiset(part)| == |part| && |multiset(Group(all', a.address))| == |Group(all', a.address)|;
  }

  // ----- what the cache shows -----

  /** A path and the address cached for it, if any. */
  type View = string -> Option<Address>

  function KeyAccount(addr: Address, path: string): Account
  {
    Account(addr, Url(KEYSTORE_SCHEME, path))
  }

  /** One account for every path in the view, and no other. */
  ghost predicate Shows(all: seq<Account>, v: View)
  {
    && AscendingAccounts(all) && HaveScheme(all)
    && (forall i :: 0 <= i < |all| ==> v(all[i].url.path) == Some(all[i].address))
    && (forall p :: v(p).Some? ==> KeyAccount(v(p).value, p) in all)
  }

  ghost function Put(v: View, path: string, o: Option<Address>): View
  {
    q => if q == path then o else v(q)
  }

  lemma ShowsSame(all: seq<Account>, v: View, w: View)
    requires Shows(all, v) && forall p :: v(p) == w(p)
    ensures Shows(all, w)
  {
  }

  lemma ShowsOne(all: seq<Account>, v: View, w: View, p: string)
    requires Shows(all, v) && Shows(all, w)
    ensures v(p) == w(p)
  {
  }

  /** Adding a key file's account, new or known already. */
  lemma AddedShows(all: seq<Account>, v: View, path: string, addr: Address)
    requires Shows(all, v) && (v(path).None? || v(path) == Some(addr))
    ensures Shows(Added(all, KeyAccount(addr, path)), Put(v, path, Some(addr)))
  {
    var a := KeyAccount(addr, path);
    if v(path).Some? {
      var k :| 0 <= k < |all| && all[k] == a;
      PlaceBefore(all, a.url, k);
      ShowsSame(all, v, Put(v, path, Some(addr)));
    } else {
      var n := Place(all, a.url);
      forall i | n <= i < |all|
        ensures Below(a.url, all[i].url)
      {
        CmpIsOrder(a.url, all[n].url);
        if i > n { BelowTrans(a.url, all[n].url, all[i].url); }
      }
      InsertAscending(all, n, a);
      InsertShows(all, v, n, a);
    }
  }

  lemma InsertAscending(all: seq<Account>, n: nat, a: Account)
    requires AscendingAccounts(all) && n <= |all|
    requires forall i :: 0 <= i < n ==> Below(all[i].url, a.url)
    requires forall i :: n <= i < |all| ==> Below(a.url, all[i].url)
    ensures AscendingAccounts(all[..n] + [a] + all[n..])
  {
  }

  lemma InsertShows(all: seq<Account>, v: View, n: nat, a: Account)
    requires Shows(all, v) && n <= |all| && a.url.scheme == KEYSTORE_SCHEME && v(a.url.path).None?
    requires AscendingAccounts(all[..n] + [a] + all[n..])
    ensures Shows(all[..n] + [a] + all[n..], Put(v, a.url.path, Some(a.address)))
  {
  }

  lemma PlaceBefore(all: seq<Account>, u: Url, k: nat)
    requires AscendingAccounts(all) && k < |all| && all[k].url == u
    ensures Place(all, u) == k
  {
  }

  lemma {:induction false} WithoutPathElems(all: seq<Account>, path: string)
    requires AscendingAccounts(all) && HaveScheme(all)
    ensures AscendingAccounts(WithoutPath(all, path))
    ensures forall x :: x in WithoutPath(all, path) <==> x in all && x.url.path != path
  {
    if all == [] {
    } else {
      WithoutPathElems(all[1..], path);
      assert all == [all[0]] + all[1..];
      if all[0].url.path == path {
        forall i | 1 <= i < |all|
          ensures all[i].url.path != path
        {
          CmpIsOrder(all[0].url, all[i].url);
        }
      } else {
        ConsAscends(all[0], all[1..], WithoutPath(all[1..], path));
      }
    }
  }

  lemma ConsAscends(a: Account, rest: seq<Account>, some: seq<Account>)
    requires AscendingAccounts([a] + rest) && AscendingAccounts(some) && forall x :: x in some ==> x in rest
    ensures AscendingAccounts([a] + some)
  {
    forall j | 0 <= j < |some|
      ensures Below(a.url, some[j].url)
    {
      assert some[j] in rest;
      var k :| 0 <= k < |rest| && rest[k] == some[j];
      assert ([a] + rest)[0] == a && ([a] + rest)[k + 1] == some[j];
    }
  }

  lemma WithoutPathShows(all: seq<Account>, v: View, path: string)
    requires Shows(all, v)
    ensures Shows(WithoutPath(all, path), Put(v, path, None))
  {
    WithoutPathElems(all, path);
    var w, all' := Put(v, path, None), WithoutPath(all, path);
    forall i | 0 <= i < |all'|
      ensures w(all'[i].url.path) == Some(all'[i].address)
    {
      assert all'[i] in all;
    }
  }

  /** The address a key file decodes to. */
  ghost function AddressIn(d: map<string, File>): View
  {
    p => if p in d then d[p].address else None
  }

  /** What is shown after a scan: files new or changed since are read, files
      gone are dropped, and the others are taken to be as they were. */
  ghost function AfterScan(v: View, known: set<string>, time: int, d: map<string, File>): View
  {
    p => if p in d && (p !in known || d[p].modified > time) then d[p].address
         else if p in known && p !in d then None
         else v(p)
  }

  /** The scan shows the directory exactly when every file it had seen before and
      that decodes differently now was modified later than the newest then. */
  lemma InSyncIff(d0: map<string, File>, time: int, d: map<string, File>)
    ensures (forall p :: AfterScan(AddressIn(d0), d0.Keys, time, d)(p) == AddressIn(d)(p)) <==>
            (forall p :: p in d0 && p in d && d[p].address != d0[p].address ==> d[p].modified > time)
  {
    var w := AfterScan(AddressIn(d0), d0.Keys, time, d);
    if forall p :: w(p) == AddressIn(d)(p) {
      forall p | p in d0 && p in d && d[p].address != d0[p].address
        ensures d[p].modified > time
      {
        assert w(p) == AddressIn(d)(p);
      }
    }
  }

  /** A key replaced within the clock's resolution is missed. */
  lemma MissedChange()
    ensures var d0 := map["k" := File(7, Some(1))];
            var d := map["k" := File(7, Some(2))];
            AfterScan(AddressIn(d0), d0.Keys, 7, d)("k") == Some(1) != AddressIn(d)("k")
  {
  }

  /** The view with the paths given taken from another. */
  ghost function Overlaid(v: View, paths: set<string>, w: View): View
  {
    p => if p in paths then w(p) else v(p)
  }

  lemma OverlayOne(all: seq<Account>, v: View, done: set<string>, path: string, w: View)
    requires Shows(all, Put(Overlaid(v, done, w), path, w(path)))
    ensures Shows(all, Overlaid(v, done + {path}, w))
  {
    ShowsSame(all, Put(Overlaid(v, done, w), path, w(path)), Overlaid(v, done + {path}, w));
  }

  /** How far a loop over a set has come. */
  ghost predicate IsSplit(todo: set<string>, done: set<string>, whole: set<string>)
  {
    todo !! done && todo + done == whole
  }

  lemma MoveOne(todo: set<string>, done: set<string>, whole: set<string>, path: string)
    requires IsSplit(todo, done, whole) && path in todo
    ensures IsSplit(todo - {path}, done + {path}, whole) && path in whole && path !in done
  {
  }

  lemma SplitDone(done: set<string>, whole: set<string>)
    requires IsSplit({}, done, whole)
    ensures done == whole
  {
  }

  // ----- the operations -----

  /** The search of deleteByFile, by path alone. */
  method FindPath(all: seq<Account>, path: string) returns (n: nat)
    requires InOrder(all) && HaveScheme(all)
    ensures n <= |all|
    ensures WithoutPath(all, path) == if n < |all| && all[n].url.path == path then all[..n] + all[n + 1..] else all
  {
    var u := Url(KEYSTORE_SCHEME, path);
    assert forall k :: 0 <= k < |all| ==> all[k].url == Url(KEYSTORE_SCHEME, all[k].url.path);
    forall j, k | 0 <= j < k < |all| && Compare(all[j].url.path, path) >= 0
      ensures Compare(all[k].url.path, path) >= 0
    {
      NotBelowTrans(all[k].url, all[j].url, u);
    }
    var f := (i: nat) requires i < |all| => Compare(all[i].url.path, path) >= 0;
    n := Search(|all|, f);
    forall i: nat | i < |all|
      ensures i < n ==> all[i].url.path != path
      ensures n <= i && all[n].url.path != path ==> all[i].url.path != path
    {
      assert i < n ==> !f(i);
      CompareIsOrder(all[i].url.path, path);
      if n <= i {
        assert f(n);
        CompareIsOrder(all[n].url.path, path);
        if i > n { CmpIsOrder(all[i].url, all[n].url); }
      }
    }
    if n < |all| && all[n].url.path == path {
      WithoutPathAt(all, path, n);
    } else {
      WithoutPathAbsent(all, path);
    }
  }

  /** sort.Sort by URL. */
  method SortByUrl(s: seq<Account>) returns (r: seq<Account>)
    ensures InOrder(r) && multiset(r) == multiset(s)
  {
    r := [];
    for i := 0 to |s|
      invariant InOrder(r) && multiset(r) == multiset(s[..i])
    {
      var n := FindPlace(r, s[i].url);
      SortStep(s, i, r, n);
      r := r[..n] + [s[i]] + r[n..];
    }
    assert s[..|s|] == s;
  }

  lemma SortStep(s: seq<Account>, i: nat, r: seq<Account>, n: nat)
    requires i < |s| && InOrder(r) && multiset(r) == multiset(s[..i]) && n == Place(r, s[i].url)
    ensures var r' := r[..n] + [s[i]] + r[n..]; InOrder(r') && multiset(r') == multiset(s[..i + 1])
  {
    PlaceKeepsOrder(r, n, s[i]);
    OneMore(r, n, s[i]);
    assert s[..i + 1] == s[..i] + [s[i]];
  }

  lemma OneMore(r: seq<Account>, n: nat, a: Account)
    requires n <= |r|
    ensures multiset(r[..n] + [a] + r[n..]) == multiset(r) + multiset{a}
  {
    assert r == r[..n] + r[n..];
  }

  datatype Answer = Found(account: Account) | NoMatch | Ambiguous(addr: Address, matches: seq<Account>)

  /** The accounts a question is about. */
  ghost function Candidates(all: seq<Account>, addr: Address): seq<Account>
  {
    if addr != NO_ADDRESS then Group(all, addr) else all
  }

  /** All accounts of the address, each as often as it is there, or all. */
  lemma {:induction false} CandidatesAre(all: seq<Account>, addr: Address, a: Account)
    ensures var n := multiset(Candidates(all, addr))[a];
            n == if addr == NO_ADDRESS || a.address == addr then multiset(all)[a] else 0
  {
    if addr == NO_ADDRESS || all == [] {
    } else {
      CandidatesAre(all[1..], addr, a);
      assert all == [all[0]] + all[1..];
    }
  }

  /** What a linear scan of the candidates answers: the one with the URL, if one
      is named, or the only one there is, or how the question fails. */
  ghost predicate Answers(candidates: seq<Account>, addr: Address, url: Url, isNamed: bool, r: Answer)
  {
    if isNamed && exists c :: c in candidates && c.url == url then
      r.Found? && r.account in candidates && r.account.url == url
    else if (isNamed && addr == NO_ADDRESS) || candidates == [] then r == NoMatch
    else if |candidates| == 1 then r == Found(candidates[0])
    else r.Ambiguous? && r.addr == addr && InOrder(r.matches) && multiset(r.matches) == multiset(candidates)
  }

  ghost predicate IsCandidate(all: seq<Account>, addr: Address, a: Account)
  {
    a in all && (addr == NO_ADDRESS || a.address == addr)
  }

  /** An account is found if it has the URL named, or is the only candidate; nothing
      matches if there is no candidate, or none has the URL and no address is given. */
  lemma AnswerMeans(all: seq<Account>, addr: Address, url: Url, isNamed: bool, r: Answer, a: Account)
    requires Answers(Candidates(all, addr), addr, url, isNamed, r)
    ensures r.Found? ==>
              && IsCandidate(all, addr, r.account)
              && ((isNamed && r.account.url == url) || forall b :: IsCandidate(all, addr, b) ==> b == r.account)
    ensures isNamed && IsCandidate(all, addr, a) && a.url == url ==> r.Found? && r.account.url == url
    ensures r == NoMatch <==>
            || (forall b :: !IsCandidate(all, addr, b))
            || (isNamed && addr == NO_ADDRESS && forall b :: IsCandidate(all, addr, b) ==> b.url != url)
    ensures r.Ambiguous? ==>
              |r.matches| > 1 && InOrder(r.matches) && multiset(r.matches) == multiset(Candidates(all, addr))
  {
    var cs := Candidates(all, addr);
    forall b
      ensures b in cs <==> IsCandidate(all, addr, b)
    {
      CandidatesAre(all, addr, b);
      assert b in cs <==> b in multiset(cs);
      assert b in all <==> b in multiset(all);
    }
    if cs != [] { assert cs[0] in cs; }
    if r.Ambiguous? { assert |multiset(r.matches)| == |r.matches| && |multiset(cs)| == |cs|; }
  }

  lemma SameBag(s: seq<Account>, t: seq<Account>)
    requires multiset(s) == multiset(t)
    ensures |s| == |t| && forall a :: a in s <==> a in t
    ensures |s| == 1 ==> s[0] == t[0]
  {
    assert |multiset(s)| == |s| && |multiset(t)| == |t|;
    forall a
      ensures a in s <==> a in t
    {
      assert a in multiset(s) <==> a in multiset(t);
    }
    if |s| == 1 { assert s[0] in t; }
  }

  /** find, on the accounts the address narrows it to, in any order. */
  method Pick(matches: seq<Account>, addr: Address, url: Url, isNamed: bool, ghost candidates: seq<Account>)
    returns (r: Answer)
    requires multiset(matches) == multiset(candidates)
    ensures Answers(candidates, addr, url, isNamed, r)
  {
    SameBag(matches, candidates);
    if isNamed {
      for i := 0 to |matches|
        invariant forall k :: 0 <= k < i ==> matches[k].url != url
      {
        if matches[i].url == url {
          assert matches[i] in candidates;
          return Found(matches[i]);
        }
      }
      assert forall c :: c in candidates ==> c.url != url;
      if addr == NO_ADDRESS {
        return NoMatch;
      }
    }
    if |matches| == 1 {
      return Found(matches[0]);
    } else if |matches| == 0 {
      return NoMatch;
    }
    var sorted := SortByUrl(matches);
    return Ambiguous(addr, sorted);
  }

  class AccountCache {
    const keydir: string
    const join: (string, string) -> string
    const fileC: FileCache
    var all: seq<Account>
    var byAddr: map<Address, seq<Account>>

    /** `all` is sorted by URL and `byAddr` is its partition. */
    ghost predicate Valid()
      reads this
    {
      InOrder(all) && HaveScheme(all) && IsPartition(all, byAddr)
    }

    constructor (keydir: string, join: (string, string) -> string)
      ensures Valid() && all == [] && fresh(fileC) && fileC.all == {} && fileC.lastMod == 0
      ensures this.keydir == keydir && this.join == join
    {
      this.keydir, this.join := keydir, join;
      fileC := new FileCache();
      all, byAddr := [], map[];
    }

    method Add(newAccount: Account)
      requires Valid() && newAccount.url.scheme == KEYSTORE_SCHEME
      modifies this
      ensures Valid() && all == Added(old(all), newAccount)
    {
      var i := FindPlace(all, newAccount.url);
      if i < |all| && all[i] == newAccount {
        return;
      }
      PlaceKeepsOrder(all, i, newAccount);
      InsertKeepsPartition(all, byAddr, i, newAccount);
      all := all[..i] + [newAccount] + all[i..];
      var part := if newAccount.address in byAddr then byAddr[newAccount.address] else [];
      byAddr := byAddr[newAccount.address := part + [newAccount]];
    }

    method DeleteByFile(path: string)
      requires Valid()
      modifies this
      ensures Valid() && all == WithoutPath(old(all), path)
    {
      var i := FindPath(all, path);
      if i < |all| && all[i].url.path == path {
        RemoveInOrder(all, i);
        RemoveKeepsPartition(all, byAddr, i);
        var removed := all[i];
        all := all[..i] + all[i + 1..];
        var ba := RemoveAccount(byAddr[removed.address], removed);
        byAddr := WithEntry(byAddr, removed.address, ba);
      }
    }

    method Delete(removed: Account)
      requires Valid()
      modifies this
      ensures Valid() && all == WithoutFirst(old(all), removed)
    {
      DeleteKeeps(all, byAddr, removed);
      all := RemoveAccount(all, removed);
      var ba := RemoveAccount(if removed.address in byAddr then byAddr[removed.address] else [], removed);
      byAddr := WithEntry(byAddr, removed.address, ba);
    }

    /** readAccount and add, for a file that can be decoded. */
    method AddFile(path: string, address: Option<Address>, ghost v: View)
      requires Valid() && Shows(all, v) && (v(path).None? || v(path) == address)
      modifies this
      ensures Valid() && Shows(all, Put(v, path, address))
    {
      if address.Some? {
        AddedShows(all, v, path, address.value);
        Add(KeyAccount(address.value, path));
      } else {
        ShowsSame(all, v, Put(v, path, None));
      }
    }

    method CreateOne(path: string, address: Option<Address>, ghost v: View, ghost done: set<string>, ghost w: View)
      requires Valid() && Shows(all, Overlaid(v, done, w)) && w(path) == address
      requires path !in done && (v(path).Some? ==> v(path) == address)
      modifies this
      ensures Valid() && Shows(all, Overlaid(v, done + {path}, w))
    {
      AddFile(path, address, Overlaid(v, done, w));
      OverlayOne(all, v, done, path, w);
    }

    method DeleteOne(path: string, ghost v: View, ghost done: set<string>, ghost w: View)
      requires Valid() && Shows(all, Overlaid(v, done, w)) && w(path) == None
      modifies this
      ensures Valid() && Shows(all, Overlaid(v, done + {path}, w))
    {
      WithoutPathShows(all, Overlaid(v, done, w), path);
      DeleteByFile(path);
      OverlayOne(all, v, done, path, w);
    }

    method UpdateOne(path: string, address: Option<Address>, ghost v: View, ghost done: set<string>, ghost w: View)
      requires Valid() && Shows(all, Overlaid(v, done, w)) && w(path) == address
      modifies this
      ensures Valid() && Shows(all, Overlaid(v, done + {path}, w))
    {
      ghost var now := Overlaid(v, done, w);
      WithoutPathShows(all, now, path);
      DeleteByFile(path);
      AddFile(path, address, Put(now, path, None));
      ShowsSame(all, Put(Put(now, path, None), path, address), Put(now, path, w(path)));
      OverlayOne(all, v, done, path, w);
    }

    /** The loops of scanAccounts, over sets in any order. */
    method HandleCreates(creates: set<string>, d: map<string, File>, ghost v: View)
      requires Valid() && Shows(all, v) && creates <= d.Keys
      requires forall p :: p in creates && v(p).Some? ==> v(p) == d[p].address
      modifies this
      ensures Valid() && Shows(all, Overlaid(v, creates, AddressIn(d)))
    {
      var todo := creates;
      ghost var done: set<string>, w := {}, AddressIn(d);
      ShowsSame(all, v, Overlaid(v, done, w));
      while todo != {}
        invariant Valid() && Shows(all, Overlaid(v, done, w))
        invariant IsSplit(todo, done, creates)
        decreases |todo|
      {
        var path :| path in todo;
        MoveOne(todo, done, creates, path);
        CreateOne(path, d[path].address, v, done, w);
        todo, done := todo - {path}, done + {path};
      }
      SplitDone(done, creates);
    }

    method HandleDeletes(deletes: set<string>, ghost v: View)
      requires Valid() && Shows(all, v)
      modifies this
      ensures Valid() && Shows(all, Overlaid(v, deletes, p => None))
    {
      var todo := deletes;
      ghost var done: set<string>, w: View := {}, p => None;
      ShowsSame(all, v, Overlaid(v, done, w));
      while todo != {}
        invariant Valid() && Shows(all, Overlaid(v, done, w))
        invariant IsSplit(todo, done, deletes)
        decreases |todo|
      {
        var path :| path in todo;
        DeleteOne(path, v, done, w);
        MoveOne(todo, done, deletes, path);
        todo, done := todo - {path}, done + {path};
      }
      SplitDone(done, deletes);
    }

    method HandleUpdates(updates: set<string>, d: map<string, File>, ghost v: View)
      requires Valid() && Shows(all, v) && updates <= d.Keys
      modifies this
      ensures Valid() && Shows(all, Overlaid(v, updates, AddressIn(d)))
    {
      var todo := updates;
      ghost var done: set<string>, w := {}, AddressIn(d);
      ShowsSame(all, v, Overlaid(v, done, w));
      while todo != {}
        invariant Valid() && Shows(all, Overlaid(v, done, w))
        invariant IsSplit(todo, done, updates)
        decreases |todo|
      {
        var path :| path in todo;
        MoveOne(todo, done, updates, path);
        UpdateOne(path, d[path].address, v, done, w);
        todo, done := todo - {path}, done + {path};
      }
      SplitDone(done, updates);
    }

    /** scanAccounts: what was shown before, put right by the directory as the
        modification times tell. Accounts added since the last scan must be there. */
    method ScanAccounts(listing: Option<seq<DirEntry>>, d: map<string, File>, ghost v: View) returns (ok: bool)
      requires listing.Some? ==> HasDistinctPaths(listing.value)
      requires listing.Some? && IsReadable(listing.value) ==> d == Listing(listing.value)
      requires Valid() && Shows(all, v)
      requires forall p :: v(p).Some? && p !in fileC.all ==> p in d && v(p) == d[p].address
      modifies this, fileC
      ensures Valid() && (ok <==> listing.Some? && IsReadable(listing.value))
      ensures !ok ==> Shows(all, v) && fileC.all == old(fileC.all) && fileC.lastMod == old(fileC.lastMod)
      ensures ok ==> Shows(all, AfterScan(v, old(fileC.all), old(fileC.lastMod), d))
      ensures ok ==> fileC.all == d.Keys && fileC.lastMod == Newest(listing.value)
    {
      ghost var known, time := fileC.all, fileC.lastMod;
      var creates, deletes, updates;
      ok, creates, deletes, updates := fileC.Scan(listing);
      if !ok {
        return;
      }
      if creates == {} && deletes == {} && updates == {} {
        ShowsSame(all, v, AfterScan(v, known, time, d));
        return;
      }
      ghost var v1 := Overlaid(v, creates, AddressIn(d));
      HandleCreates(creates, d, v);
      ghost var v2 := Overlaid(v1, deletes, p => None);
      HandleDeletes(deletes, v1);
      HandleUpdates(updates, d, v2);
      ShowsSame(all, Overlaid(v2, updates, AddressIn(d)), AfterScan(v, known, time, d));
    }

    /** The cache holds exactly the key files that can be decoded. */
    ghost predicate InSync(d: map<string, File>)
      reads this, fileC
    {
      Shows(all, AddressIn(d)) && fileC.all == d.Keys
    }

    /** A cache in sync with the directory as it was is, after a scan, in sync
        with the directory as it is, exactly if changes carry a later time. */
    method Rescan(listing: Option<seq<DirEntry>>, d: map<string, File>, ghost d0: map<string, File>) returns (ok: bool)
      requires listing.Some? ==> HasDistinctPaths(listing.value)
      requires listing.Some? && IsReadable(listing.value) ==> d == Listing(listing.value)
      requires Valid() && InSync(d0)
      modifies this, fileC
      ensures Valid() && (ok <==> listing.Some? && IsReadable(listing.value)) && (!ok ==> InSync(d0))
      ensures ok ==>
                (InSync(d) <==> forall p :: p in d0 && p in d && d[p].address != d0[p].address ==>
                                  d[p].modified > old(fileC.lastMod))
    {
      ghost var time, v := fileC.lastMod, AddressIn(d0);
      ok := ScanAccounts(listing, d, v);
      InSyncIff(d0, time, d);
      ghost var w := AfterScan(v, d0.Keys, time, d);
      if ok && Shows(all, AddressIn(d)) {
        forall p ensures w(p) == AddressIn(d)(p) { ShowsOne(all, w, AddressIn(d), p); }
      } else if ok && forall p :: w(p) == AddressIn(d)(p) {
        ShowsSame(all, w, AddressIn(d));
      }
    }

    /** find. A path that names a file only is completed with the directory. */
    method Find(a: Account) returns (r: Answer)
      requires Valid()
      ensures a.url.path == "" ==> Answers(Candidates(all, a.address), a.address, a.url, false, r)
      ensures a.url.path != "" && '/' in a.url.path ==>
                Answers(Candidates(all, a.address), a.address, a.url, true, r)
      ensures a.url.path != "" && '/' !in a.url.path ==>
                Answers(Candidates(all, a.address), a.address, Url(a.url.scheme, join(keydir, a.url.path)), true, r)
    {
      var matches := all;
      if a.address != NO_ADDRESS {
        matches := if a.address in byAddr then byAddr[a.address] else [];
      }
      assert IsPart(all, byAddr, a.address);
      var url := a.url;
      if url.path != "" && SEPARATOR !in url.path {
        url := url.(path := join(keydir, url.path));
      }
      r := Pick(matches, a.address, url, a.url.path != "", Candidates(all, a.address));
    }
  }

  lemma {:induction false} FirstAt(s: seq<Account>, a: Account) returns (i: nat)
    requires a in s
    ensures i < |s| && s[i] == a && a !in s[..i] && WithoutFirst(s, a) == s[..i] + s[i + 1..]
  {
    if s[0] == a {
      i := 0;
    } else {
      i := FirstAt(s[1..], a);
      i := i + 1;
      assert s[..i] == [s[0]] + s[1..][..i - 1];
      WithoutFirstAt(s, a, i);
    }
  }

  lemma {:induction false} GroupIn(all: seq<Account>, addr: Address, a: Account)
    requires a in Group(all, addr)
    ensures a in all && a.address == addr
  {
    if a !in Group(all[1..], addr) {
      assert a == all[0];
    } else {
      GroupIn(all[1..], addr, a);
    }
  }

  lemma DeleteKeeps(all: seq<Account>, byAddr: map<Address, seq<Account>>, a: Account)
    requires InOrder(all) && HaveScheme(all) && IsPartition(all, byAddr)
    ensures var all' := WithoutFirst(all, a);
            var part := WithoutFirst(if a.address in byAddr then byAddr[a.address] else [], a);
            InOrder(all') && HaveScheme(all') && IsPartition(all', WithEntry(byAddr, a.address, part))
  {
    if a in all {
      var i := FirstAt(all, a);
      RemoveInOrder(all, i);
      RemoveKeepsPartition(all, byAddr, i);
    } else {
      WithoutFirstAbsent(all, a);
      assert IsPart(all, byAddr, a.address);
      var part := if a.address in byAddr then byAddr[a.address] else [];
      SameBag(part, Group(all, a.address));
      if a in Group(all, a.address) { GroupIn(all, a.address, a); }
      WithoutFirstAbsent(part, a);
      assert WithEntry(byAddr, a.address, part) == byAddr;
    }
  }
}
