/**
 The page cache: spans of pages are cut from what the system granted, kept in free lists by
 size, and joined again with a free successor.  Pages are numbered; an address of the program
 is a page number times the page size.
 */
module PageCache {
  import opened Wrappers

  type Id = nat

  datatype Pointer = Null | Ref(id: Id)

  /** `pageAddr` and `numPages` of a span. */
  datatype Extent = Extent(addr: nat, pages: nat)

  type Spans = map<Id, Extent>
  type Lists = map<nat, seq<Id>>

  // ----- The free lists -----

  function Head(s: seq<Id>): Pointer {
    if s == [] then Null else Ref(s[0])
  }

  /** Node i points to the node after it, the last one to nothing. */
  ghost predicate LinkAt(next: map<Id, Pointer>, s: seq<Id>, i: nat)
    requires i < |s|
  {
    s[i] in next && next[s[i]] == Head(s[i + 1..])
  }

  /** The list that the pointers spell out. */
  ghost predicate Chain(next: map<Id, Pointer>, head: Pointer, s: seq<Id>) {
    && head == Head(s)
    && (forall i {:trigger LinkAt(next, s, i)} :: 0 <= i < |s| ==> LinkAt(next, s, i))
    && (forall i, j :: 0 <= i < j < |s| ==> s[i] != s[j])
  }

  /** Spans of k pages. */
  ghost predicate AllOfSize(spans: Spans, s: seq<Id>, k: nat) {
    forall i :: 0 <= i < |s| ==> s[i] in spans && spans[s[i]].pages == k
  }

  /** Every bucket holds a list of spans of its own size. */
  ghost predicate Bucketed(spans: Spans, next: map<Id, Pointer>, heads: map<nat, Pointer>, lists: Lists) {
    && heads.Keys == lists.Keys
    && (forall k :: k in lists ==> Chain(next, heads[k], lists[k]) && AllOfSize(spans, lists[k], k))
  }

  function ListOf(lists: Lists, k: nat): seq<Id> {
    if k in lists then lists[k] else []
  }

  ghost predicate Listed(spans: Spans, lists: Lists, id: Id)
    requires id in spans
  {
    id in ListOf(lists, spans[id].pages)
  }

  function Without(s: seq<Id>, j: nat): (t: seq<Id>)
    requires j < |s|
    ensures |t| == |s| - 1
  {
    s[..j] + s[j + 1..]
  }

  lemma PushChain(next: map<Id, Pointer>, head: Pointer, s: seq<Id>, id: Id)
    requires Chain(next, head, s) && id !in s
    ensures Chain(next[id := head], Ref(id), [id] + s)
  {
    var t, next' := [id] + s, next[id := head];
    assert t[1..] == s;
    forall i | 0 <= i < |t|
      ensures LinkAt(next', t, i)
    {
      if i > 0 {
        assert LinkAt(next, s, i - 1) && t[i + 1..] == s[i..];
      }
    }
  }

  lemma OtherChain(next: map<Id, Pointer>, next': map<Id, Pointer>, head: Pointer, s: seq<Id>)
    requires Chain(next, head, s)
    requires forall i :: 0 <= i < |s| ==> s[i] in next ==> s[i] in next' && next'[s[i]] == next[s[i]]
    ensures Chain(next', head, s)
  {
    forall i | 0 <= i < |s|
      ensures LinkAt(next', s, i)
    {
      assert LinkAt(next, s, i);
    }
  }

  lemma PopChain(next: map<Id, Pointer>, head: Pointer, s: seq<Id>)
    requires Chain(next, head, s) && s != []
    ensures s[0] in next && Chain(next, next[s[0]], s[1..]) && s[0] !in s[1..]
  {
    var t := s[1..];
    assert LinkAt(next, s, 0);
    forall i | 0 <= i < |t|
      ensures LinkAt(next, t, i)
    {
      assert LinkAt(next, s, i + 1) && t[i + 1..] == s[i + 2..];
    }
  }

  lemma WithoutAt(s: seq<Id>, j: nat, i: nat)
    requires j < |s| && i < |s| - 1
    ensures Without(s, j)[i] == s[if i < j then i else i + 1]
    ensures i >= j ==> Without(s, j)[i + 1..] == s[i + 2..]
    ensures i + 1 == j ==> Without(s, j)[i + 1..] == s[j + 1..]
    ensures i + 1 < j ==> Head(Without(s, j)[i + 1..]) == Head(s[i + 1..])
  {
  }

  lemma CutChain(next: map<Id, Pointer>, head: Pointer, s: seq<Id>, j: nat)
    requires Chain(next, head, s) && 0 < j < |s| && s[j] in next
    ensures Chain(next[s[j - 1] := next[s[j]]], head, Without(s, j))
  {
    hide Without;
    var t, next' := Without(s, j), next[s[j - 1] := next[s[j]]];
    forall i | 0 <= i < |t|
      ensures LinkAt(next', t, i)
    {
      WithoutAt(s, j, i);
      assert LinkAt(next, s, j) && LinkAt(next, s, if i < j then i else i + 1);
    }
    forall i, k | 0 <= i < k < |t|
      ensures t[i] != t[k]
    {
      WithoutAt(s, j, i);
      WithoutAt(s, j, k);
    }
    WithoutAt(s, j, 0);
  }

  lemma WithoutHasTheOthers(s: seq<Id>, j: nat, id: Id)
    requires j < |s| && forall i, k :: 0 <= i < k < |s| ==> s[i] != s[k]
    ensures id in Without(s, j) <==> id in s && id != s[j]
  {
    if id in s && id != s[j] {
      var i :| 0 <= i < |s| && s[i] == id;
      assert Without(s, j)[if i < j then i else i - 1] == id;
    }
  }

  // ----- The pages -----

  predicate Covers(e: Extent, p: nat) {
    e.addr <= p < e.addr + e.pages
  }

  /** The spans tile the pages: every page has the one span that covers it. */
  ghost predicate Tiled(spans: Spans, owner: map<nat, Id>) {
    && (forall id :: id in spans ==> spans[id].pages > 0)
    && (forall id, p: nat :: id in spans && Covers(spans[id], p) ==> p in owner && owner[p] == id)
    && (forall p :: p in owner ==> owner[p] in spans && Covers(spans[owner[p]], p))
  }

  /** Registered addresses lead to spans that exist, and allocated spans are registered. */
  ghost predicate Registered(spans: Spans, spanMap: map<nat, Id>, taken: set<Id>) {
    && (forall a :: a in spanMap ==> spanMap[a] in spans && spans[spanMap[a]].addr == a)
    && (forall id :: id in taken ==> id in spans && spans[id].addr in spanMap && spanMap[spans[id].addr] == id)
  }

  /** A span is either allocated or in the free list of its size. */
  ghost predicate Divided(spans: Spans, lists: Lists, taken: set<Id>) {
    forall id :: id in spans ==> (id in taken <==> !Listed(spans, lists, id))
  }

  /** The spans of one kind: address and number of pages. */
  ghost function Part(spans: Spans, owner: map<nat, Id>, part: set<Id>): map<nat, nat>
    requires Tiled(spans, owner)
  {
    map a | a in owner && owner[a] in part && spans[owner[a]].addr == a :: spans[owner[a]].pages
  }

  function Regrown(owner: map<nat, Id>, lo: nat, hi: nat, id: Id): map<nat, Id> {
    map p | p in owner :: if lo <= p < hi then id else owner[p]
  }

  function Granted(owner: map<nat, Id>, lo: nat, hi: nat, id: Id): (r: map<nat, Id>)
    ensures forall p :: p in r <==> p in owner || lo <= p < hi
    ensures forall p :: p in r ==> r[p] == if lo <= p < hi then id else owner[p]
    decreases hi - lo
  {
    if lo >= hi then owner else Granted(owner, lo + 1, hi, id)[lo := id]
  }

  /** The other spans have what is left of them after e was placed. */
  ghost predicate Cleared(spans: Spans, spans': Spans, id: Id, e: Extent) {
    && (forall c :: c in spans' && c != id ==> c in spans && spans'[c].pages > 0)
    && (forall c, p: nat :: c in spans' && c != id && c in spans ==>
         (Covers(spans'[c], p) <==> Covers(spans[c], p) && !Covers(e, p)))
    && (forall c, p: nat :: c in spans && (c !in spans' || c == id) && Covers(spans[c], p) ==> Covers(e, p))
  }

  /** Giving the pages of e to id keeps the tiling. */
  lemma Placed(spans: Spans, owner: map<nat, Id>, id: Id, e: Extent, spans': Spans, owner': map<nat, Id>)
    requires Tiled(spans, owner) && e.pages > 0
    requires id in spans' && spans'[id] == e && Cleared(spans, spans', id, e)
    requires forall p: nat :: p in owner' <==> p in owner || Covers(e, p)
    requires forall p :: p in owner' ==> owner'[p] == if Covers(e, p) then id else owner[p]
    ensures Tiled(spans', owner')
  {
    hide Covers;
    forall p | p in owner'
      ensures owner'[p] in spans' && Covers(spans'[owner'[p]], p)
    {
      if !Covers(e, p) {
        assert Covers(spans[owner[p]], p);
      }
    }
  }

  lemma NoneIsEmpty(spans: Spans, owner: map<nat, Id>)
    requires Tiled(spans, owner)
    ensures forall id :: id in spans ==> spans[id].pages > 0
  {
  }

  lemma Owned(spans: Spans, owner: map<nat, Id>, c: Id, p: nat)
    requires Tiled(spans, owner) && c in spans
    ensures Covers(spans[c], p) <==> p in owner && owner[p] == c
  {
    hide Covers;
  }

  lemma SplitCleared(spans: Spans, owner: map<nat, Id>, id: Id, n: nat, b: Id, f: Extent)
    requires Tiled(spans, owner) && id in spans && b !in spans && 0 < n < spans[id].pages
    requires f == Extent(spans[id].addr + n, spans[id].pages - n)
    ensures Cleared(spans, spans[id := Extent(spans[id].addr, n)][b := f], b, f)
    ensures forall p: nat :: Covers(f, p) ==> p in owner
  {
    hide Tiled;
    NoneIsEmpty(spans, owner);
    forall c, p: nat | c in spans && c != id
      ensures !(Covers(spans[c], p) && Covers(spans[id], p))
    {
      Owned(spans, owner, c, p);
      Owned(spans, owner, id, p);
    }
    forall p: nat | Covers(f, p)
      ensures Covers(spans[id], p) && p in owner
    {
      Owned(spans, owner, id, p);
    }
  }

  lemma GrantedPages(owner: map<nat, Id>, addr: nat, n: nat, id: Id)
    ensures forall p: nat :: p in Granted(owner, addr, addr + n, id) <==> p in owner || Covers(Extent(addr, n), p)
  {
    hide Granted;
  }

  lemma SplitTiled(spans: Spans, owner: map<nat, Id>, id: Id, n: nat, b: Id)
    requires Tiled(spans, owner) && id in spans && b !in spans && 0 < n < spans[id].pages
    ensures
      var e := spans[id];
      Tiled(spans[id := Extent(e.addr, n)][b := Extent(e.addr + n, e.pages - n)],
            Regrown(owner, e.addr + n, e.addr + e.pages, b))
  {
    hide Tiled, Cleared;
    var e := spans[id];
    var f := Extent(e.addr + n, e.pages - n);
    SplitCleared(spans, owner, id, n, b, f);
    Placed(spans, owner, b, f, spans[id := Extent(e.addr, n)][b := f], Regrown(owner, f.addr, e.addr + e.pages, b));
  }

  lemma MergeCleared(spans: Spans, owner: map<nat, Id>, id: Id, b: Id, g: Extent)
    requires Tiled(spans, owner) && id in spans && b in spans && id != b
    requires spans[b].addr == spans[id].addr + spans[id].pages
    requires g == Extent(spans[id].addr, spans[id].pages + spans[b].pages)
    ensures Cleared(spans, spans[id := g] - {b}, id, g)
    ensures forall p: nat :: Covers(g, p) ==> p in owner && owner[p] == if Covers(spans[b], p) then b else id
  {
    hide Tiled;
    forall p: nat
      ensures Covers(g, p) <==> Covers(spans[id], p) || Covers(spans[b], p)
    {
    }
    forall c, p: nat | c in spans && Covers(g, p)
      ensures c != id && c != b ==> !Covers(spans[c], p)
      ensures p in owner && owner[p] == if Covers(spans[b], p) then b else id
    {
      Owned(spans, owner, c, p);
      Owned(spans, owner, id, p);
      Owned(spans, owner, b, p);
    }
    NoneIsEmpty(spans, owner);
  }

  lemma MergeTiled(spans: Spans, owner: map<nat, Id>, id: Id, b: Id)
    requires Tiled(spans, owner) && id in spans && b in spans && id != b
    requires spans[b].addr == spans[id].addr + spans[id].pages
    ensures
      var e, f := spans[id], spans[b];
      Tiled(spans[id := Extent(e.addr, e.pages + f.pages)] - {b}, Regrown(owner, f.addr, f.addr + f.pages, id))
  {
    hide Tiled, Cleared;
    var e, f := spans[id], spans[b];
    var g := Extent(e.addr, e.pages + f.pages);
    MergeCleared(spans, owner, id, b, g);
    NoneIsEmpty(spans, owner);
    Placed(spans, owner, id, g, spans[id := g] - {b}, Regrown(owner, f.addr, f.addr + f.pages, id));
  }

  lemma GrantCleared(spans: Spans, owner: map<nat, Id>, id: Id, e: Extent)
    requires Tiled(spans, owner) && id !in spans
    requires forall p: nat :: Covers(e, p) ==> p !in owner
    ensures Cleared(spans, spans[id := e], id, e)
  {
    hide Tiled;
    NoneIsEmpty(spans, owner);
    forall c, p: nat | c in spans
      ensures !(Covers(spans[c], p) && Covers(e, p))
    {
      Owned(spans, owner, c, p);
    }
  }

  lemma GrantTiled(spans: Spans, owner: map<nat, Id>, id: Id, e: Extent)
    requires Tiled(spans, owner) && id !in spans && e.pages > 0
    requires forall p: nat :: Covers(e, p) ==> p !in owner
    ensures Tiled(spans[id := e], Granted(owner, e.addr, e.addr + e.pages, id))
  {
    hide Tiled, Cleared, Granted;
    GrantCleared(spans, owner, id, e);
    Placed(spans, owner, id, e, spans[id := e], Granted(owner, e.addr, e.addr + e.pages, id));
  }

  // ----- Steps of the bookkeeping -----

  /** Everything but the registration; `taken` are the spans in no free list. */
  datatype Books = Books(spans: Spans, next: map<Id, Pointer>, heads: map<nat, Pointer>, lists: Lists, taken: set<Id>)

  ghost predicate Kept(b: Books) {
    && Bucketed(b.spans, b.next, b.heads, b.lists) && Divided(b.spans, b.lists, b.taken)
    && b.next.Keys == b.spans.Keys && b.taken <= b.spans.Keys
  }

  /** A bucket whose list is s from now on. */
  ghost predicate Relisted(b: Books, b': Books, k: nat, s: seq<Id>) {
    && b'.spans == b.spans
    && b.heads.Keys == b.lists.Keys && b'.heads.Keys == b'.lists.Keys
    && (forall j :: j != k ==> (j in b'.lists <==> j in b.lists))
    && (forall j :: j != k && j in b.lists ==> b'.lists[j] == b.lists[j] && b'.heads[j] == b.heads[j])
    && (k in b'.lists ==> b'.lists[k] == s)
    && (k !in b'.lists ==> s == [])
  }

  /** The lists of the other sizes do not see a change of the pointers of spans of this size. */
  ghost predicate SameElsewhere(b: Books, b': Books, k: nat) {
    && b'.next.Keys == b.next.Keys
    && forall id :: id in b.spans && id in b.next && b.spans[id].pages != k ==> b'.next[id] == b.next[id]
  }

  lemma RelistedIsKept(b: Books, b': Books, k: nat, s: seq<Id>)
    requires Kept(b) && Relisted(b, b', k, s) && SameElsewhere(b, b', k)
    requires AllOfSize(b.spans, s, k) && (k in b'.lists ==> Chain(b'.next, b'.heads[k], s))
    requires b'.taken <= b'.spans.Keys
    requires forall id :: id in b.spans ==>
      (id in b'.taken <==> if b.spans[id].pages == k then id !in s else id in b.taken)
    ensures Kept(b')
  {
    forall j | j in b'.lists
      ensures Chain(b'.next, b'.heads[j], b'.lists[j]) && AllOfSize(b'.spans, b'.lists[j], j)
    {
      if j != k {
        assert Chain(b.next, b.heads[j], b.lists[j]) && AllOfSize(b.spans, b.lists[j], j);
        OtherChain(b.next, b'.next, b.heads[j], b.lists[j]);
      }
    }
  }

  lemma TailMembers(next: map<Id, Pointer>, head: Pointer, s: seq<Id>, spans: Spans, k: nat)
    requires Chain(next, head, s) && AllOfSize(spans, s, k) && s != []
    ensures s[0] in next && Chain(next, next[s[0]], s[1..]) && AllOfSize(spans, s[1..], k)
    ensures forall id :: id in s[1..] <==> id in s && id != s[0]
    ensures s[0] in spans && spans[s[0]].pages == k
  {
    PopChain(next, head, s);
    assert s == [s[0]] + s[1..];
    assert forall i :: 0 <= i < |s[1..]| ==> s[1..][i] == s[i + 1];
  }

  lemma ListMembers(b: Books, k: nat, id: Id)
    requires Kept(b) && k in b.lists && id in b.spans && b.spans[id].pages == k
    ensures id in b.taken <==> id !in b.lists[k]
  {
  }

  /** The head of a bucket is taken out; an empty bucket goes, or stays with a null pointer. */
  lemma PopKept(b: Books, k: nat, b': Books)
    requires Kept(b) && k in b.lists && b.lists[k] != [] && b.lists[k][0] in b.next
    requires Relisted(b, b', k, b.lists[k][1..]) && b'.next == b.next && b'.taken == b.taken + {b.lists[k][0]}
    requires k in b'.lists ==> b'.heads[k] == b.next[b.lists[k][0]]
    ensures Kept(b')
  {
    var s := b.lists[k];
    assert Chain(b.next, b.heads[k], s) && AllOfSize(b.spans, s, k);
    hide Kept, Chain, AllOfSize, Relisted;
    TailMembers(b.next, b.heads[k], s, b.spans, k);
    forall id | id in b.spans
      ensures id in b'.taken <==> if b.spans[id].pages == k then id !in s[1..] else id in b.taken
    {
      if b.spans[id].pages == k { ListMembers(b, k, id); }
    }
    RelistedIsKept(b, b', k, s[1..]);
  }

  function Popped(b: Books, k: nat): Books
    requires k in b.lists && b.lists[k] != [] && b.lists[k][0] in b.next
  {
    var id := b.lists[k][0];
    if b.next[id] == Null then b.(heads := b.heads - {k}, lists := b.lists - {k}, taken := b.taken + {id})
    else b.(heads := b.heads[k := b.next[id]], lists := b.lists[k := b.lists[k][1..]], taken := b.taken + {id})
  }

  lemma BucketHead(b: Books, k: nat)
    requires Kept(b) && k in b.heads && b.heads[k] != Null
    ensures k in b.lists && b.lists[k] != [] && b.heads[k] == Ref(b.lists[k][0])
    ensures
      var id := b.lists[k][0];
      && id in b.spans && id in b.next && b.spans[id].pages == k && id !in b.taken
      && b.next[id] == Head(b.lists[k][1..])
    ensures b.heads.Keys == b.lists.Keys
  {
    var s := b.lists[k];
    assert Chain(b.next, b.heads[k], s) && AllOfSize(b.spans, s, k);
    assert LinkAt(b.next, s, 0);
  }

  lemma PoppedIsKept(b: Books, k: nat)
    requires Kept(b) && k in b.heads && b.heads[k] != Null
    ensures k in b.lists && b.lists[k] != [] && b.heads[k] == Ref(b.lists[k][0])
    ensures
      var id := b.lists[k][0];
      id in b.spans && id in b.next && b.spans[id].pages == k && id !in b.taken && Kept(Popped(b, k))
  {
    hide Kept;
    BucketHead(b, k);
    PopKept(b, k, Popped(b, k));
  }

  function HeadOf(b: Books, k: nat): Pointer {
    if k in b.heads then b.heads[k] else Null
  }

  /** A span is put at the front of the list of its size. */
  function Pushed(b: Books, id: Id): Books
    requires id in b.spans
  {
    var k := b.spans[id].pages;
    b.(next := b.next[id := HeadOf(b, k)], heads := b.heads[k := Ref(id)],
       lists := b.lists[k := [id] + ListOf(b.lists, k)], taken := b.taken - {id})
  }

  lemma ListIsChain(b: Books, k: nat)
    requires Kept(b)
    ensures Chain(b.next, HeadOf(b, k), ListOf(b.lists, k)) && AllOfSize(b.spans, ListOf(b.lists, k), k)
    ensures forall id :: id in b.spans && b.spans[id].pages == k ==> (id in b.taken <==> id !in ListOf(b.lists, k))
    ensures b.heads.Keys == b.lists.Keys && b.next.Keys == b.spans.Keys && b.taken <= b.spans.Keys
  {
  }

  lemma PushedIsKept(b: Books, id: Id)
    requires Kept(b) && id in b.taken && id in b.spans
    ensures Kept(Pushed(b, id))
  {
    hide Kept, Chain;
    var k := b.spans[id].pages;
    var s := ListOf(b.lists, k);
    var t := [id] + s;
    ListIsChain(b, k);
    PushChain(b.next, HeadOf(b, k), s, id);
    assert forall i :: 0 < i < |t| ==> t[i] == s[i - 1];
    RelistedIsKept(b, Pushed(b, id), k, t);
  }

  lemma CutMembers(next: map<Id, Pointer>, head: Pointer, s: seq<Id>, j: nat, spans: Spans, k: nat)
    requires Chain(next, head, s) && AllOfSize(spans, s, k) && 0 < j < |s|
    ensures AllOfSize(spans, Without(s, j), k)
    ensures forall id :: id in Without(s, j) <==> id in s && id != s[j]
    ensures s[j - 1] in next && s[j] in next
    ensures forall i :: 0 <= i < |s| ==> s[i] in spans && spans[s[i]].pages == k
  {
    hide Without;
    var t := Without(s, j);
    assert LinkAt(next, s, j - 1) && LinkAt(next, s, j);
    forall id
      ensures id in t <==> id in s && id != s[j]
    {
      WithoutHasTheOthers(s, j, id);
    }
    forall i | 0 <= i < |t|
      ensures t[i] in spans && spans[t[i]].pages == k
    {
      WithoutAt(s, j, i);
    }
  }

  /** The span at place j of a list is taken out. */
  function CutOut(b: Books, k: nat, j: nat): Books
    requires k in b.lists && 0 < j < |b.lists[k]| && b.lists[k][j] in b.next
  {
    var s := b.lists[k];
    b.(next := b.next[s[j - 1] := b.next[s[j]]], lists := b.lists[k := Without(s, j)], taken := b.taken + {s[j]})
  }

  lemma CutOutIsKept(b: Books, k: nat, j: nat)
    requires Kept(b) && k in b.lists && 0 < j < |b.lists[k]| && b.lists[k][j] in b.next
    ensures Kept(CutOut(b, k, j))
  {
    hide Kept, Without, Chain, AllOfSize;
    var s := b.lists[k];
    ListIsChain(b, k);
    CutChain(b.next, b.heads[k], s, j);
    CutMembers(b.next, b.heads[k], s, j, b.spans, k);
    RelistedIsKept(b, CutOut(b, k, j), k, Without(s, j));
  }

  /** The first span of a list is taken out, and the bucket stays, maybe with a null pointer. */
  function Beheaded(b: Books, k: nat): Books
    requires k in b.lists && b.lists[k] != [] && b.lists[k][0] in b.next
  {
    var s := b.lists[k];
    b.(heads := b.heads[k := b.next[s[0]]], lists := b.lists[k := s[1..]], taken := b.taken + {s[0]})
  }

  lemma BeheadedIsKept(b: Books, k: nat)
    requires Kept(b) && k in b.heads && k in b.lists && b.lists[k] != [] && b.lists[k][0] in b.next
    ensures Kept(Beheaded(b, k))
  {
    hide Kept;
    ListIsChain(b, k);
    PopKept(b, k, Beheaded(b, k));
  }

  /** `freeSpans_[k]` makes a bucket that is not there, with a null pointer. */
  function Touched(b: Books, k: nat): Books {
    if k in b.heads then b else b.(heads := b.heads[k := Null], lists := b.lists[k := []])
  }

  lemma TouchedIsKept(b: Books, k: nat)
    requires Kept(b)
    ensures Kept(Touched(b, k))
  {
    if k !in b.heads {
      RelistedIsKept(b, Touched(b, k), k, []);
    }
  }

  /** A span in no list gets another extent, or is made. */
  function Resized(b: Books, id: Id, e: Extent, p: Pointer): Books {
    b.(spans := b.spans[id := e], next := b.next[id := p], taken := b.taken + {id})
  }

  lemma ResizedIsKept(b: Books, id: Id, e: Extent, p: Pointer)
    requires Kept(b) && (id in b.spans ==> id in b.taken)
    ensures Kept(Resized(b, id, e, p))
  {
    var b' := Resized(b, id, e, p);
    forall k | k in b.lists
      ensures id !in b.lists[k]
      ensures Chain(b'.next, b'.heads[k], b.lists[k]) && AllOfSize(b'.spans, b.lists[k], k)
    {
      assert Chain(b.next, b.heads[k], b.lists[k]) && AllOfSize(b.spans, b.lists[k], k);
      OtherChain(b.next, b'.next, b.heads[k], b.lists[k]);
    }
  }

  function Deleted(b: Books, id: Id): Books {
    b.(spans := b.spans - {id}, next := b.next - {id}, taken := b.taken - {id})
  }

  lemma DeletedIsKept(b: Books, id: Id)
    requires Kept(b) && id in b.taken
    ensures Kept(Deleted(b, id))
  {
    var b' := Deleted(b, id);
    forall k | k in b.lists
      ensures Chain(b'.next, b'.heads[k], b.lists[k]) && AllOfSize(b'.spans, b.lists[k], k)
    {
      assert Chain(b.next, b.heads[k], b.lists[k]) && AllOfSize(b.spans, b.lists[k], k);
      OtherChain(b.next, b'.next, b.heads[k], b.lists[k]);
    }
  }

  // ----- The two kinds of spans -----

  lemma PartAt(spans: Spans, owner: map<nat, Id>, part: set<Id>, id: Id)
    requires Tiled(spans, owner) && id in spans
    ensures spans[id].addr in owner && owner[spans[id].addr] == id
    ensures spans[id].addr in Part(spans, owner, part) <==> id in part
    ensures id in part ==> Part(spans, owner, part)[spans[id].addr] == spans[id].pages
  {
    assert Covers(spans[id], spans[id].addr);
  }

  lemma PartFrom(spans: Spans, owner: map<nat, Id>, part: set<Id>, a: nat)
    requires Tiled(spans, owner)
    ensures a in owner ==> owner[a] in spans
    ensures a in Part(spans, owner, part) <==> a in owner && owner[a] in part && spans[owner[a]].addr == a
  {
  }

  /**
   m' lists the spans of part' if it differs from the list m of part only where spans of one
   of a few addresses come and go.
   */
  lemma PartIs(spans: Spans, owner: map<nat, Id>, part: set<Id>, m: map<nat, nat>)
    requires Tiled(spans, owner)
    requires forall id :: id in spans && id in part ==> spans[id].addr in m && m[spans[id].addr] == spans[id].pages
    requires forall a :: a in m ==> exists id :: id in spans && id in part && spans[id].addr == a
    ensures Part(spans, owner, part) == m
  {
    var t := Part(spans, owner, part);
    forall a
      ensures a in t <==> a in m
      ensures a in m ==> t[a] == m[a]
    {
      PartFrom(spans, owner, part, a);
      if a in m {
        var id :| id in spans && id in part && spans[id].addr == a;
        PartAt(spans, owner, part, id);
      }
    }
    assert t == m;
  }

  lemma Distinct(spans: Spans, owner: map<nat, Id>, c: Id, d: Id)
    requires Tiled(spans, owner) && c in spans && d in spans && spans[c].addr == spans[d].addr
    ensures c == d
  {
    PartAt(spans, owner, {}, c);
    PartAt(spans, owner, {}, d);
  }

  /** A span joins a part. */
  lemma PartJoin(spans: Spans, owner: map<nat, Id>, part: set<Id>, id: Id)
    requires Tiled(spans, owner) && id in spans && id !in part
    ensures Part(spans, owner, part + {id}) == Part(spans, owner, part)[spans[id].addr := spans[id].pages]
    ensures spans[id].addr !in Part(spans, owner, part)
  {
    hide Tiled, Part;
    var m := Part(spans, owner, part)[spans[id].addr := spans[id].pages];
    forall c | c in spans && c in part + {id}
      ensures spans[c].addr in m && m[spans[c].addr] == spans[c].pages
    {
      PartAt(spans, owner, part, c);
      if c != id && spans[c].addr == spans[id].addr { Distinct(spans, owner, c, id); }
    }
    forall a | a in m
      ensures exists c :: c in spans && c in part + {id} && spans[c].addr == a
    {
      PartFrom(spans, owner, part, a);
      if a == spans[id].addr {
        assert id in part + {id};
      } else {
        assert owner[a] in part + {id};
      }
    }
    PartIs(spans, owner, part + {id}, m);
    PartAt(spans, owner, part, id);
  }

  lemma PartLeave(spans: Spans, owner: map<nat, Id>, part: set<Id>, id: Id)
    requires Tiled(spans, owner) && id in spans && id in part
    ensures Part(spans, owner, part - {id}) == Part(spans, owner, part) - {spans[id].addr}
  {
    hide Tiled, Part;
    PartJoin(spans, owner, part - {id}, id);
    assert part - {id} + {id} == part;
  }

  /** A part is the same as long as its spans are. */
  lemma PartSame(spans: Spans, owner: map<nat, Id>, spans': Spans, owner': map<nat, Id>, part: set<Id>)
    requires Tiled(spans, owner) && Tiled(spans', owner')
    requires forall id :: id in part ==> id in spans && id in spans' && spans'[id] == spans[id]
    ensures Part(spans', owner', part) == Part(spans, owner, part)
  {
    hide Tiled, Part;
    var m := Part(spans, owner, part);
    forall c | c in spans' && c in part
      ensures spans'[c].addr in m && m[spans'[c].addr] == spans'[c].pages
    {
      PartAt(spans, owner, part, c);
    }
    forall a | a in m
      ensures exists c :: c in spans' && c in part && spans'[c].addr == a
    {
      PartFrom(spans, owner, part, a);
      assert owner[a] in part;
    }
    PartIs(spans', owner', part, m);
  }

  /** A span of the free list is handed out whole. */
  lemma TakeParts(spans: Spans, owner: map<nat, Id>, taken: set<Id>, id: Id)
    requires Tiled(spans, owner) && id in spans && id !in taken
    ensures
      var e := spans[id];
      && Part(spans, owner, taken + {id}) == Part(spans, owner, taken)[e.addr := e.pages]
      && Part(spans, owner, spans.Keys - (taken + {id})) == Part(spans, owner, spans.Keys - taken) - {e.addr}
      && e.addr in Part(spans, owner, spans.Keys - taken) && Part(spans, owner, spans.Keys - taken)[e.addr] == e.pages
  {
    hide Tiled, Part;
    PartJoin(spans, owner, taken, id);
    PartLeave(spans, owner, spans.Keys - taken, id);
    PartAt(spans, owner, spans.Keys - taken, id);
    assert spans.Keys - (taken + {id}) == spans.Keys - taken - {id};
  }

  /** A span of the free list is handed out in part, and the rest stays. */
  lemma SplitParts(spans: Spans, owner: map<nat, Id>, taken: set<Id>, id: Id, n: nat, b: Id, spans': Spans,
                   owner': map<nat, Id>)
    requires Tiled(spans, owner) && id in spans && id !in taken && taken <= spans.Keys
    requires b !in spans && 0 < n < spans[id].pages
    requires spans' == spans[id := Extent(spans[id].addr, n)][b := Extent(spans[id].addr + n, spans[id].pages - n)]
    requires Tiled(spans', owner')
    ensures
      var e := spans[id];
      && Part(spans', owner', taken + {id}) == Part(spans, owner, taken)[e.addr := n]
      && Part(spans', owner', spans'.Keys - (taken + {id})) ==
         (Part(spans, owner, spans.Keys - taken) - {e.addr})[e.addr + n := e.pages - n]
      && e.addr in Part(spans, owner, spans.Keys - taken) && Part(spans, owner, spans.Keys - taken)[e.addr] == e.pages
  {
    hide Tiled, Part;
    PartSame(spans, owner, spans', owner', taken);
    PartJoin(spans', owner', taken, id);
    var free := spans.Keys - taken - {id};
    PartAt(spans, owner, spans.Keys - taken, id);
    PartLeave(spans, owner, spans.Keys - taken, id);
    PartSame(spans, owner, spans', owner', free);
    PartJoin(spans', owner', free, b);
    assert spans'.Keys - (taken + {id}) == free + {b};
  }

  /** The system grants a span that is handed out at once. */
  lemma GrantParts(spans: Spans, owner: map<nat, Id>, taken: set<Id>, id: Id, e: Extent, owner': map<nat, Id>)
    requires Tiled(spans, owner) && id !in spans && taken <= spans.Keys && Tiled(spans[id := e], owner')
    ensures Part(spans[id := e], owner', taken + {id}) == Part(spans, owner, taken)[e.addr := e.pages]
    ensures Part(spans[id := e], owner', spans[id := e].Keys - (taken + {id})) == Part(spans, owner, spans.Keys - taken)
  {
    hide Tiled, Part;
    var spans' := spans[id := e];
    PartSame(spans, owner, spans', owner', taken);
    PartJoin(spans', owner', taken, id);
    PartSame(spans, owner, spans', owner', spans.Keys - taken);
    assert spans'.Keys - (taken + {id}) == spans.Keys - taken;
  }

  /** A span comes back to the free list. */
  lemma ReturnParts(spans: Spans, owner: map<nat, Id>, taken: set<Id>, id: Id)
    requires Tiled(spans, owner) && id in spans && id in taken
    ensures
      var e := spans[id];
      && Part(spans, owner, taken - {id}) == Part(spans, owner, taken) - {e.addr}
      && Part(spans, owner, spans.Keys - (taken - {id})) == Part(spans, owner, spans.Keys - taken)[e.addr := e.pages]
      && e.addr !in Part(spans, owner, spans.Keys - taken)
  {
    hide Tiled, Part;
    PartLeave(spans, owner, taken, id);
    PartJoin(spans, owner, spans.Keys - taken, id);
    assert spans.Keys - (taken - {id}) == spans.Keys - taken + {id};
  }

  /** A span comes back and is joined with the free span b behind it. */
  lemma MergeParts(spans: Spans, owner: map<nat, Id>, taken: set<Id>, id: Id, b: Id, spans': Spans,
                   owner': map<nat, Id>)
    requires Tiled(spans, owner) && id in spans && id in taken && b in spans && b !in taken && taken <= spans.Keys
    requires spans' == spans[id := Extent(spans[id].addr, spans[id].pages + spans[b].pages)] - {b}
    requires Tiled(spans', owner')
    ensures
      var e, f := spans[id], spans[b];
      && Part(spans', owner', taken - {id}) == Part(spans, owner, taken) - {e.addr}
      && Part(spans', owner', spans'.Keys - (taken - {id})) ==
         (Part(spans, owner, spans.Keys - taken) - {f.addr})[e.addr := e.pages + f.pages]
  {
    hide Tiled, Part;
    PartLeave(spans, owner, taken, id);
    PartSame(spans, owner, spans', owner', taken - {id});
    var free := spans.Keys - taken - {b};
    PartLeave(spans, owner, spans.Keys - taken, b);
    PartSame(spans, owner, spans', owner', free);
    PartJoin(spans', owner', free, id);
    assert spans'.Keys - (taken - {id}) == free + {id};
  }

  ghost predicate CoveredBy(part: map<nat, nat>, a: nat, p: nat) {
    a in part && Covers(Extent(a, part[a]), p)
  }

  /** Live and free spans are a disjoint tiling of the granted pages. */
  lemma LiveAndFreeTile(spans: Spans, owner: map<nat, Id>, taken: set<Id>, p: nat)
    requires Tiled(spans, owner)
    ensures
      var live, free := Part(spans, owner, taken), Part(spans, owner, spans.Keys - taken);
      && (p in owner <==> exists a :: CoveredBy(live, a, p) || CoveredBy(free, a, p))
      && (forall a, b :: CoveredBy(live, a, p) && CoveredBy(free, b, p) ==> false)
      && (forall a, b :: CoveredBy(live, a, p) && CoveredBy(live, b, p) ==> a == b)
      && (forall a, b :: CoveredBy(free, a, p) && CoveredBy(free, b, p) ==> a == b)
  {
    hide Tiled, Part;
    var live, free := Part(spans, owner, taken), Part(spans, owner, spans.Keys - taken);
    forall a | CoveredBy(live, a, p) || CoveredBy(free, a, p)
      ensures p in owner && owner[p] in spans && spans[owner[p]].addr == a
      ensures CoveredBy(live, a, p) <==> owner[p] in taken
    {
      PartFrom(spans, owner, taken, a);
      PartFrom(spans, owner, spans.Keys - taken, a);
      PartAt(spans, owner, taken, owner[a]);
      PartAt(spans, owner, spans.Keys - taken, owner[a]);
      Owned(spans, owner, owner[a], p);
    }
    if p in owner {
      PartFrom(spans, owner, taken, p);
      Owned(spans, owner, owner[p], p);
      PartAt(spans, owner, taken, owner[p]);
      PartAt(spans, owner, spans.Keys - taken, owner[p]);
      var a := spans[owner[p]].addr;
      assert CoveredBy(live, a, p) || CoveredBy(free, a, p);
    }
  }

  /** No page of the span is one of a live span. */
  ghost predicate Apart(live: map<nat, nat>, addr: nat, n: nat) {
    forall a, p: nat :: CoveredBy(live, a, p) ==> !Covers(Extent(addr, n), p)
  }

  lemma FreeIsApart(spans: Spans, owner: map<nat, Id>, taken: set<Id>, addr: nat, n: nat)
    requires Tiled(spans, owner)
    requires addr in Part(spans, owner, spans.Keys - taken) && n <= Part(spans, owner, spans.Keys - taken)[addr]
    ensures Apart(Part(spans, owner, taken), addr, n)
  {
    hide Tiled, Part;
    var live, free := Part(spans, owner, taken), Part(spans, owner, spans.Keys - taken);
    forall a, p: nat | CoveredBy(live, a, p)
      ensures !Covers(Extent(addr, n), p)
    {
      LiveAndFreeTile(spans, owner, taken, p);
      assert Covers(Extent(addr, n), p) ==> CoveredBy(free, addr, p);
    }
  }

  lemma GrantIsApart(spans: Spans, owner: map<nat, Id>, taken: set<Id>, addr: nat, n: nat)
    requires Tiled(spans, owner) && forall p: nat :: Covers(Extent(addr, n), p) ==> p !in owner
    ensures Apart(Part(spans, owner, taken), addr, n)
  {
    hide Tiled, Part;
    forall a, p: nat | CoveredBy(Part(spans, owner, taken), a, p)
      ensures !Covers(Extent(addr, n), p)
    {
      LiveAndFreeTile(spans, owner, taken, p);
    }
  }

  // ----- Registration -----

  lemma RegisterTaken(spans: Spans, spanMap: map<nat, Id>, taken: set<Id>, id: Id, spans': Spans, owner': map<nat, Id>)
    requires Registered(spans, spanMap, taken) && Tiled(spans', owner') && id in spans'
    requires forall c :: c in spans ==> c in spans' && spans'[c].addr == spans[c].addr
    ensures Registered(spans', spanMap[spans'[id].addr := id], taken + {id})
  {
    forall c | c in taken
      ensures spanMap[spans'[id].addr := id][spans'[c].addr] == c
    {
      if spans'[c].addr == spans'[id].addr { Distinct(spans', owner', c, id); }
    }
  }

  lemma FreedIsRegistered(spans: Spans, spanMap: map<nat, Id>, taken: set<Id>, id: Id)
    requires Registered(spans, spanMap, taken)
    ensures Registered(spans, spanMap, taken - {id})
  {
  }

  lemma MergedIsRegistered(spans: Spans, spanMap: map<nat, Id>, taken: set<Id>, id: Id, b: Id, spans': Spans)
    requires Registered(spans, spanMap, taken) && b in spans && b !in taken && id in spans && id != b
    requires spans[b].addr in spanMap && spanMap[spans[b].addr] == b
    requires forall c :: c in spans' <==> c in spans && c != b
    requires forall c :: c in spans' ==> spans'[c].addr == spans[c].addr
    ensures Registered(spans', spanMap - {spans[b].addr}, taken - {id})
  {
    assert forall c :: c in taken ==> spanMap[spans[c].addr] == c && c != b;
  }

  /** The list of bucket m, which may be new, is d shorter; the others are as they were. */
  ghost predicate Shortened(lists: Lists, lists': Lists, m: nat, d: nat) {
    && (forall k :: k in lists' <==> k in lists || k == m)
    && (forall k :: k in lists && k != m ==> lists'[k] == lists[k])
    && |lists'[m]| == |ListOf(lists, m)| - d
  }

  /** No bucket is left without spans. */
  ghost predicate NoneEmpty(lists: Lists) {
    forall k :: k in lists ==> lists[k] != []
  }

  class PageCache {
    var spans: Spans
    var next: map<Id, Pointer>
    var heads: map<nat, Pointer>
    var spanMap: map<nat, Id>
    var created: nat
    ghost var lists: Lists
    ghost var owner: map<nat, Id>
    ghost var taken: set<Id>

    ghost function Value(): Books
      reads this
    {
      Books(spans, next, heads, lists, taken)
    }

    ghost predicate Consistent()
      reads this
    {
      Kept(Value()) && Tiled(spans, owner) && forall id :: id in spans ==> id < created
    }

    ghost predicate Valid()
      reads this
    {
      Consistent() && Registered(spans, spanMap, taken)
    }

    /** The spans handed out and those in the free lists, by address. */
    ghost function Live(): map<nat, nat>
      reads this
      requires Consistent()
    {
      Part(spans, owner, taken)
    }

    ghost function Free(): map<nat, nat>
      reads this
      requires Consistent()
    {
      Part(spans, owner, spans.Keys - taken)
    }

    constructor ()
      ensures Valid() && Live() == map[] && Free() == map[] && owner == map[] && lists == map[]
    {
      spans, next, heads, spanMap, created := map[], map[], map[], map[], 0;
      lists, owner, taken := map[], map[], {};
    }

    /** `lower_bound`: the smallest bucket for n pages or more. */
    method LowerBound(n: nat) returns (r: Option<nat>)
      ensures r.None? ==> forall k :: k in heads ==> k < n
      ensures r.Some? ==> r.value in heads && n <= r.value && forall k :: k in heads && n <= k ==> r.value <= k
    {
      r := None;
      var keys := heads.Keys;
      while keys != {}
        invariant keys <= heads.Keys
        invariant r.None? ==> forall k :: k in heads && k !in keys ==> k < n
        invariant r.Some? ==>
          r.value in heads && n <= r.value && forall k :: k in heads && k !in keys && n <= k ==> r.value <= k
        decreases |keys|
      {
        var k :| k in keys;
        if n <= k && (r.None? || k < r.value) { r := Some(k); }
        keys := keys - {k};
      }
    }

    /** The first span of a bucket leaves it, and the bucket goes with its last span. */
    method PopBucket(k: nat) returns (id: Id)
      requires Kept(Value()) && k in heads && heads[k] != Null
      modifies this`heads, this`lists, this`taken
      ensures k in old(lists) && old(lists[k]) != [] && id == old(lists[k][0])
      ensures id in spans && id in next && spans[id].pages == k && id !in old(taken)
      ensures Value() == Popped(old(Value()), k) && Kept(Value())
    {
      hide Kept;
      PoppedIsKept(Value(), k);
      ghost var after := Popped(Value(), k);
      id := heads[k].id;
      if next[id] != Null {
        heads := heads[k := next[id]];
      } else {
        heads := heads - {k};
      }
      lists, taken := after.lists, after.taken;
      assert Value() == after;
    }

    /** A span goes to the front of the free list of its size. */
    method PushFree(id: Id)
      requires Kept(Value()) && id in spans && id in taken
      modifies this`next, this`heads, this`lists, this`taken
      ensures Value() == Pushed(old(Value()), id) && Kept(Value())
    {
      hide Kept;
      PushedIsKept(Value(), id);
      ghost var after := Pushed(Value(), id);
      var k := spans[id].pages;
      next := next[id := if k in heads then heads[k] else Null];
      heads := heads[k := Ref(id)];
      lists, taken := after.lists, after.taken;
      assert Value() == after;
    }

    /** A walk along the list after its head, which is not b; the place of b in the list if it is there. */
    method FindAfterHead(m: nat, b: Id) returns (prev: Id, found: bool, ghost j: nat)
      requires Kept(Value()) && m in heads && m in lists && heads[m] != Null && heads[m] != Ref(b)
      ensures found ==> 0 < j < |lists[m]| && lists[m][j] == b && lists[m][j - 1] == prev && b in next
      ensures !found ==> b !in lists[m]
    {
      ListIsChain(Value(), m);
      hide Kept, Chain;
      ghost var s := lists[m];
      prev := heads[m].id;
      found := false;
      j := 1;
      ChainLink(next, heads[m], s, 0);
      while next[prev] != Null
        invariant 0 < j <= |s| && prev == s[j - 1] && forall i :: 0 <= i < j ==> s[i] != b
        invariant prev in next && next[prev] == Head(s[j..])
        decreases |s| - j
      {
        ChainLink(next, heads[m], s, j);
        if next[prev] == Ref(b) {
          return prev, true, j;
        }
        prev := next[prev].id;
        j := j + 1;
      }
    }

    /** The part of `deallocateSpan` that takes a span out of its free list, if it is in one. */
    method Unlink(b: Id) returns (found: bool)
      requires Kept(Value()) && b in spans
      modifies this`next, this`heads, this`lists, this`taken
      ensures Kept(Value()) && found == (b !in old(taken)) && taken == old(taken) + {b}
      ensures Shortened(old(lists), lists, spans[b].pages, if found then 1 else 0)
    {
      hide Kept;
      var m := spans[b].pages;
      ListIsChain(Value(), m);
      TouchedIsKept(Value(), m);
      ghost var touched := Touched(Value(), m);
      if m !in heads {
        heads := heads[m := Null];
        lists := touched.lists;
      }
      assert Value() == touched;
      ListIsChain(Value(), m);
      found := false;
      if heads[m] == Ref(b) {
        BeheadedIsKept(Value(), m);
        ghost var after := Beheaded(Value(), m);
        heads := heads[m := next[b]];
        lists, taken := after.lists, after.taken;
        assert Value() == after;
        found := true;
      } else if heads[m] != Null {
        var prev;
        ghost var j;
        prev, found, j := FindAfterHead(m, b);
        if found {
          CutOutIsKept(Value(), m, j);
          ghost var after := CutOut(Value(), m, j);
          next := next[prev := next[b]];
          lists, taken := after.lists, after.taken;
          assert Value() == after;
        }
      }
    }

    /** The rest of a span that is too large becomes a free span of its own. */
    method SplitOff(id: Id, n: nat)
      requires Consistent() && id in spans && id in taken && 0 < n < spans[id].pages
      modifies this`spans, this`next, this`heads, this`lists, this`taken, this`owner, this`created
      ensures Consistent() && old(created) !in old(spans) && taken == old(taken)
      ensures var e := old(spans[id]);
        && spans == old(spans)[id := Extent(e.addr, n)][old(created) := Extent(e.addr + n, e.pages - n)]
        && owner == Regrown(old(owner), e.addr + n, e.addr + e.pages, old(created))
    {
      hide Kept, Tiled;
      var b, e := created, spans[id];
      var rest := Extent(e.addr + n, e.pages - n);
      ListIsChain(Value(), 0);
      SplitTiled(spans, owner, id, n, b);
      created := created + 1;
      MakeFree(b, rest);
      Resize(id, n);
      owner := Regrown(owner, e.addr + n, e.addr + e.pages, b);
      assert spans == old(spans)[id := Extent(e.addr, n)][b := rest];
    }

    /** A new span in the free list of its size. */
    method MakeFree(b: Id, e: Extent)
      requires Kept(Value()) && b !in spans
      modifies this`spans, this`next, this`heads, this`lists, this`taken
      ensures Kept(Value()) && spans == old(spans)[b := e] && taken == old(taken)
    {
      hide Kept;
      ListIsChain(Value(), 0);
      MakeTaken(b, e);
      PushFree(b);
      assert taken == old(taken);
    }

    /** `new Span`. */
    method MakeTaken(b: Id, e: Extent)
      requires Kept(Value()) && b !in spans
      modifies this`spans, this`next, this`taken
      ensures Kept(Value()) && spans == old(spans)[b := e] && taken == old(taken) + {b}
    {
      hide Kept;
      ResizedIsKept(Value(), b, e, Null);
      ghost var after := Resized(Value(), b, e, Null);
      spans, next := spans[b := e], next[b := Null];
      taken := after.taken;
      assert Value() == after;
    }

    method Resize(id: Id, n: nat)
      requires Kept(Value()) && id in spans && id in taken
      modifies this`spans
      ensures Kept(Value()) && spans == old(spans)[id := Extent(old(spans[id].addr), n)]
    {
      hide Kept;
      ListIsChain(Value(), 0);
      var e := Extent(spans[id].addr, n);
      ResizedIsKept(Value(), id, e, next[id]);
      ghost var after := Resized(Value(), id, e, next[id]);
      spans := spans[id := e];
      assert next == after.next && taken == after.taken;
      assert Value() == after;
    }

    /** The bucket that a request for n pages takes its span from. */
    ghost predicate IsBestBucket(k: nat, n: nat)
      reads this
    {
      k in heads && n <= k && forall j :: j in heads && n <= j ==> k <= j
    }

    /** A span of n pages from the best bucket: the rest of a larger one stays free. */
    method TakeFrom(k: nat, n: nat) returns (addr: nat)
      requires Valid() && k in heads && heads[k] != Null && 0 < n <= k
      modifies this
      ensures Valid() && owner.Keys == old(owner.Keys)
      ensures addr in old(Free()) && old(Free())[addr] == k
      ensures Live() == old(Live())[addr := n]
      ensures
        var rest := old(Free()) - {addr};
        Free() == if n < k then rest[addr + n := k - n] else rest
    {
      hide Kept, Tiled, Part, Registered;
      ghost var spans0, owner0, taken0 := spans, owner, taken;
      ListIsChain(Value(), 0);
      var id := PopBucket(k);
      addr := spans[id].addr;
      assert taken == taken0 + {id};
      if spans[id].pages > n {
        ghost var b := created;
        SplitOff(id, n);
        SplitParts(spans0, owner0, taken0, id, n, b, spans, owner);
      } else {
        TakeParts(spans0, owner0, taken0, id);
      }
      RegisterTaken(spans0, spanMap, taken0, id, spans, owner);
      spanMap := spanMap[addr := id];
    }

    /** A request for n pages chooses a bucket whose pointer is null, and follows it. */
    ghost predicate FollowsNull(n: nat)
      reads this
    {
      exists k :: IsBestBucket(k, n) && heads[k] == Null
    }

    /**
     `allocateSpan`: the best fit, or pages that the system grants if no free span is large
     enough; `crashed` if the chosen bucket holds no span, where the program follows a null
     pointer.
     */
    method AllocateSpan(n: nat, memory: Option<nat>) returns (r: Option<nat>, crashed: bool)
      requires Valid() && n > 0
      requires memory.Some? ==> forall p: nat :: Covers(Extent(memory.value, n), p) ==> p !in owner
      modifies this
      ensures Valid() && (crashed <==> old(FollowsNull(n)))
      ensures crashed ==> r == None && Value() == old(Value()) && owner == old(owner) && spanMap == old(spanMap)
      ensures
        if crashed then true
        else if exists k :: k in old(heads) && n <= k then
          && r.Some? && r.value in old(Free()) && owner.Keys == old(owner.Keys)
          && var k := old(Free())[r.value];
             && n <= k && (forall a :: a in old(Free()) && n <= old(Free())[a] ==> k <= old(Free())[a])
             && Live() == old(Live())[r.value := n]
             && Free() == if n < k then (old(Free()) - {r.value})[r.value + n := k - n] else old(Free()) - {r.value}
        else
          && r == memory && Free() == old(Free()) && lists == old(lists)
          && Live() == (if r.Some? then old(Live())[r.value := n] else old(Live()))
          && forall p: nat :: p in owner <==> p in old(owner) || (r.Some? && Covers(Extent(r.value, n), p))
      ensures r.Some? ==> Apart(old(Live()), r.value, n)
    {
      hide Kept, Tiled, Part, Registered, Apart, Covers;
      var it := LowerBound(n);
      match it {
        case Some(k) =>
          assert IsBestBucket(k, n);
          if heads[k] == Null { return None, true; }
          FreeHasBucket(Value(), owner);
          ghost var spans0, owner0, taken0 := spans, owner, taken;
          var addr := TakeFrom(k, n);
          FreeIsApart(spans0, owner0, taken0, addr, n);
          return Some(addr), false;
        case None =>
          if memory.Some? {
            GrantIsApart(spans, owner, taken, memory.value, n);
            Grant(memory.value, n);
          }
          return memory, false;
      }
    }

    /** A new span on pages of the system. */
    method Grant(addr: nat, n: nat)
      requires Valid() && n > 0 && forall p: nat :: Covers(Extent(addr, n), p) ==> p !in owner
      modifies this
      ensures Valid() && Live() == old(Live())[addr := n] && Free() == old(Free()) && lists == old(lists)
      ensures forall p: nat :: p in owner <==> p in old(owner) || Covers(Extent(addr, n), p)
    {
      hide Kept, Tiled, Part, Registered, Granted, Covers;
      ghost var spans0, owner0, taken0 := spans, owner, taken;
      GrantedPages(owner, addr, n, created);
      var id, e := created, Extent(addr, n);
      ListIsChain(Value(), 0);
      GrantTiled(spans, owner, id, e);
      MakeTaken(id, e);
      created := created + 1;
      owner := Granted(owner, addr, addr + n, id);
      GrantParts(spans0, owner0, taken0, id, e, owner);
      RegisterTaken(spans0, spanMap, taken0, id, spans, owner);
      spanMap := spanMap[addr := id];
    }

    /** Span id takes the pages of b, which is deleted. */
    method Join(id: Id, b: Id)
      requires Consistent() && id in spans && id in taken && b in spans && b in taken && id != b
      requires spans[b].addr == spans[id].addr + spans[id].pages
      modifies this`spans, this`next, this`taken, this`owner
      ensures Consistent() && taken == old(taken) - {b} && owner.Keys == old(owner.Keys)
      ensures spans == old(spans)[id := Extent(old(spans[id].addr), old(spans[id].pages) + old(spans[b].pages))] - {b}
    {
      hide Kept, Tiled;
      var e, f := spans[id], spans[b];
      MergeTiled(spans, owner, id, b);
      Resize(id, e.pages + f.pages);
      owner := Regrown(owner, f.addr, f.addr + f.pages, id);
      DeletedIsKept(Value(), b);
      ghost var after := Deleted(Value(), b);
      spans, next := spans - {b}, next - {b};
      taken := after.taken;
      assert Value() == after;
    }

    /** The free span right behind the pages that come back, if its address is registered. */
    ghost predicate FreeNeighbour(addr: nat)
      reads this
      requires Consistent()
    {
      addr in spanMap && addr in Free()
    }

    /** The search of the neighbour's free list does not leave a bucket without spans. */
    ghost predicate NeighbourSpared(addr: nat, n: nat)
      reads this
      requires Valid()
    {
      addr in spanMap ==>
        var m := spans[spanMap[addr]].pages;
        if addr in Free() then |ListOf(lists, m)| > 1 else m in lists || m == n
    }

    /** The part of `deallocateSpan` that joins a span with a free one right behind it. */
    method Coalesce(id: Id, nextAddr: nat)
      requires Valid() && id in spans && id in taken && nextAddr == spans[id].addr + spans[id].pages
      modifies this
      ensures Consistent() && taken == old(taken) && id in spans && owner.Keys == old(owner.Keys)
      ensures spans[id].pages ==
          old(spans[id].pages) + if old(FreeNeighbour(nextAddr)) then old(Free())[nextAddr] else 0
      ensures Registered(spans, spanMap, taken - {id})
      ensures spanMap == if old(FreeNeighbour(nextAddr)) then old(spanMap) - {nextAddr} else old(spanMap)
      ensures Part(spans, owner, taken - {id}) == old(Live()) - {old(spans[id].addr)}
      ensures
        Part(spans, owner, spans.Keys - (taken - {id})) ==
        (if old(FreeNeighbour(nextAddr)) then old(Free()) - {nextAddr} else old(Free()))
          [old(spans[id].addr) := spans[id].pages]
      ensures if nextAddr !in old(spanMap) then lists == old(lists)
              else Shortened(old(lists), lists, old(spans[spanMap[nextAddr]].pages),
                             if old(FreeNeighbour(nextAddr)) then 1 else 0)
    {
      hide Kept, Tiled, Part, Shortened, Registered;
      ghost var spans0, owner0, taken0 := spans, owner, taken;
      ListIsChain(Value(), 0);
      NoneIsEmpty(spans, owner);
      FreedIsRegistered(spans, spanMap, taken0, id);
      ReturnParts(spans, owner, taken0, id);
      if nextAddr in spanMap {
        var b := spanMap[nextAddr];
        FreeIsFree(spans, owner, taken, spanMap, nextAddr);
        var found := Unlink(b);
        if found {
          Join(id, b);
          MergeParts(spans0, owner0, taken0, id, b, spans, owner);
          MergedIsRegistered(spans0, spanMap, taken0, id, b, spans);
          spanMap := spanMap - {nextAddr};
        }
        assert taken == taken0;
      }
    }

    /**
     `deallocateSpan`: an unknown address is ignored; otherwise the span joins its free
     successor, if there is one, and goes to the front of its free list.  A bucket without
     spans, on which the next `allocateSpan` of that size stumbles, is left behind exactly
     when the search empties or makes the bucket of the neighbour.
     */
    method DeallocateSpan(ptr: nat, n: nat)
      requires Valid() && (ptr in spanMap ==> ptr in Live() && Live()[ptr] == n)
      modifies this
      ensures Valid() && owner.Keys == old(owner.Keys)
      ensures ptr !in old(spanMap) ==> Live() == old(Live()) && Free() == old(Free()) && lists == old(lists)
      ensures ptr in old(spanMap) ==> Live() == old(Live()) - {ptr}
      ensures ptr in old(spanMap) ==>
        Free() == if old(FreeNeighbour(ptr + n)) then (old(Free()) - {ptr + n})[ptr := n + old(Free())[ptr + n]]
                  else old(Free())[ptr := n]
      ensures spanMap == if ptr in old(spanMap) && old(FreeNeighbour(ptr + n)) then old(spanMap) - {ptr + n}
                         else old(spanMap)
      ensures ptr in old(spanMap) && NoneEmpty(old(lists)) ==>
        (NoneEmpty(lists) <==> old(NeighbourSpared(ptr + n, n)))
    {
      hide Kept, Tiled, Part, Registered, Shortened, NoneEmpty;
      if ptr !in spanMap { return; }
      var id := spanMap[ptr];
      LiveIsTaken(spans, owner, taken, spanMap, ptr, n);
      NoneIsEmpty(spans, owner);
      ghost var lists0, known, free := lists, ptr + n in spanMap, FreeNeighbour(ptr + n);
      if known { FreeIsFree(spans, owner, taken, spanMap, ptr + n); }
      ghost var m := if known then spans[spanMap[ptr + n]].pages else 0;
      Coalesce(id, ptr + n);
      if NoneEmpty(lists0) {
        StillNoneEmpty(lists0, spans[id].pages, id);
        if known { EmptyBucketIff(lists0, lists, m, if free then 1 else 0, spans[id].pages, id); }
      }
      PushFree(id);
    }
  }

  /** Pushing a span on list k leaves an empty bucket only if the search did, at another size. */
  lemma EmptyBucketIff(lists: Lists, lists': Lists, m: nat, d: nat, k: nat, id: Id)
    requires NoneEmpty(lists) && Shortened(lists, lists', m, d) && (d > 0 ==> k != m)
    ensures NoneEmpty(lists'[k := [id] + ListOf(lists', k)]) <==> k == m || |ListOf(lists, m)| > d
  {
    var after := lists'[k := [id] + ListOf(lists', k)];
    forall j | j in after && j != m
      ensures after[j] != []
    {
      assert j != k ==> j in lists && lists[j] != [];
    }
    assert k != m ==> after[m] == lists'[m];
  }

  lemma StillNoneEmpty(lists: Lists, k: nat, id: Id)
    requires NoneEmpty(lists)
    ensures NoneEmpty(lists[k := [id] + ListOf(lists, k)])
    ensures forall m :: m in lists <==> |ListOf(lists, m)| > 0
  {
  }

  lemma FreeIsFree(spans: Spans, owner: map<nat, Id>, taken: set<Id>, spanMap: map<nat, Id>, a: nat)
    requires Tiled(spans, owner) && Registered(spans, spanMap, taken) && a in spanMap
    ensures spanMap[a] in spans && spans[spanMap[a]].addr == a
    ensures a in Part(spans, owner, spans.Keys - taken) <==> spanMap[a] !in taken
    ensures a in Part(spans, owner, spans.Keys - taken) ==>
      Part(spans, owner, spans.Keys - taken)[a] == spans[spanMap[a]].pages
  {
    hide Tiled, Part;
    PartAt(spans, owner, spans.Keys - taken, spanMap[a]);
  }

  /** A bucket without spans is one that some request would choose: the one for its own size. */
  lemma NullIsFollowedIff(cache: PageCache)
    requires cache.Valid()
    ensures (exists n :: cache.FollowsNull(n)) <==> !NoneEmpty(cache.lists)
  {
    hide Tiled, Registered, Divided;
    assert forall k :: k in cache.lists ==> Chain(cache.next, cache.heads[k], cache.lists[k]);
    if !NoneEmpty(cache.lists) {
      var k :| k in cache.lists && cache.lists[k] == [];
      assert cache.IsBestBucket(k, k) && cache.heads[k] == Null;
      assert cache.FollowsNull(k);
    }
  }

  lemma NoBuckets(b: Books)
    requires Kept(b) && b.lists == map[]
    ensures forall k :: k !in b.heads
  {
    assert b.heads.Keys == b.lists.Keys;
  }

  /** One free span makes free lists of at most one span. */
  lemma OneFreeSpan(b: Books, owner: map<nat, Id>, a: nat, k: nat)
    requires Kept(b) && Tiled(b.spans, owner)
    requires forall c :: c in Part(b.spans, owner, b.spans.Keys - b.taken) ==> c == a
    ensures |ListOf(b.lists, k)| <= 1
  {
    var s := ListOf(b.lists, k);
    ListIsChain(b, k);
    hide Kept, Tiled, Part;
    forall i | 0 <= i < |s|
      ensures s[i] in b.spans && b.spans[s[i]].addr == a
    {
      PartAt(b.spans, owner, b.spans.Keys - b.taken, s[i]);
    }
    if |s| > 1 {
      Distinct(b.spans, owner, s[0], s[1]);
      assert false;
    }
  }

  /** Only pages with an owner are registered. */
  lemma RegisteredIsOwned(spans: Spans, owner: map<nat, Id>, spanMap: map<nat, Id>, taken: set<Id>)
    requires Tiled(spans, owner) && Registered(spans, spanMap, taken)
    ensures forall a :: a in spanMap ==> a in owner
    ensures forall a :: a in Part(spans, owner, taken) ==> a in spanMap
  {
    forall a | a in spanMap
      ensures a in owner
    {
      PartAt(spans, owner, taken, spanMap[a]);
    }
  }

  /** The state of the witness: two live spans of one page each, side by side. */
  method TwoNeighbours() returns (cache: PageCache)
    ensures fresh(cache) && cache.Valid() && cache.lists == map[]
    ensures cache.Live() == map[100 := 1, 101 := 1] && cache.Free() == map[]
    ensures 100 in cache.spanMap && 101 in cache.spanMap && 102 !in cache.spanMap
  {
    hide Kept, Tiled, Part, Registered, Apart;
    cache := new PageCache();
    NoBuckets(cache.Value());
    var a, crashed := cache.AllocateSpan(1, Some(100));
    NoBuckets(cache.Value());
    var b, crashed' := cache.AllocateSpan(1, Some(101));
    assert cache.Live() == map[100 := 1, 101 := 1];
    RegisteredIsOwned(cache.spans, cache.owner, cache.spanMap, cache.taken);
  }

  /** Freed in this order they leave a null bucket. */
  method NullBucketArises() returns (cache: PageCache)
    ensures cache.Valid() && exists n :: cache.FollowsNull(n)
  {
    hide Kept, Tiled, Part, Registered;
    cache := TwoNeighbours();
    cache.DeallocateSpan(101, 1);
    assert cache.Free() == map[101 := 1] && NoneEmpty(cache.lists);
    OneFreeSpan(cache.Value(), cache.owner, 101, 1);
    FreeIsFree(cache.spans, cache.owner, cache.taken, cache.spanMap, 101);
    assert !cache.NeighbourSpared(101, 1);
    cache.DeallocateSpan(100, 1);
    NullIsFollowedIff(cache);
  }

  lemma LiveIsTaken(spans: Spans, owner: map<nat, Id>, taken: set<Id>, spanMap: map<nat, Id>, a: nat, n: nat)
    requires Tiled(spans, owner) && Registered(spans, spanMap, taken) && a in spanMap
    requires a in Part(spans, owner, taken) && Part(spans, owner, taken)[a] == n
    ensures var id := spanMap[a]; id in spans && id in taken && spans[id] == Extent(a, n)
  {
    hide Tiled, Part;
    PartFrom(spans, owner, taken, a);
    PartAt(spans, owner, taken, spanMap[a]);
  }

  /** Every free span has a bucket, and every free span in a bucket has its size. */
  lemma FreeHasBucket(b: Books, owner: map<nat, Id>)
    requires Kept(b) && Tiled(b.spans, owner)
    ensures
      var free := Part(b.spans, owner, b.spans.Keys - b.taken);
      forall a :: a in free ==> free[a] in b.heads
  {
  }

  lemma ChainLink(next: map<Id, Pointer>, head: Pointer, s: seq<Id>, i: nat)
    requires Chain(next, head, s) && i < |s|
    ensures head == Ref(s[0]) && s[i] in next && next[s[i]] == Head(s[i + 1..])
  {
    assert LinkAt(next, s, i);
  }
}
