/** kern/kdebug.c: the search for the debug symbol that contains an address. */
module Stabs {
  import opened Options


  const WORDS: nat := 0x1_0000_0000
  type Word = x: nat | x < WORDS

  /** struct Stab, without the fields the search does not read. */
  datatype Stab = Stab(kind: nat, value: Word)

  predicate Is(stabs: seq<Stab>, i: int, kind: nat) {
    0 <= i < |stabs| && stabs[i].kind == kind
  }

  /** Stabs of the kind are in address order within [left, right]. */
  predicate Ordered(stabs: seq<Stab>, left: int, right: int, kind: nat) {
    forall i, j :: left <= i <= j <= right && Is(stabs, i, kind) && Is(stabs, j, kind) ==> stabs[i].value <= stabs[j].value
  }

  /** `l` is the last stab of the kind at or below `addr`, and `r` is just before the next of the kind, or `right`. */
  predicate Brackets(stabs: seq<Stab>, left: int, right: int, kind: nat, addr: nat, l: int, r: int) {
    && left <= l <= r <= right && Is(stabs, l, kind) && stabs[l].value <= addr
    && (forall i :: l < i <= r ==> !Is(stabs, i, kind))
    && (r < right ==> Is(stabs, r + 1, kind) && stabs[r + 1].value > addr)
  }

  /** The backward scan: the last stab of the kind in [l, m], or l - 1. */
  function LastOf(stabs: seq<Stab>, l: int, m: int, kind: nat): (r: int)
    ensures l - 1 <= r && (l - 1 <= m ==> r <= m)
    ensures r >= l ==> Is(stabs, r, kind)
    ensures forall i :: r < i <= m && l <= i ==> !Is(stabs, i, kind)
    decreases m - l + 1
  {
    if m < l then l - 1 else if Is(stabs, m, kind) then m else LastOf(stabs, l, m - 1, kind)
  }

  /** Where a search with a fixed key would first meet a stab equal to `addr`: does a stab equal to `addr + 1` lie
      within reach at that moment? From there on the moving key takes that one for a match as well. */
  predicate Drifts(stabs: seq<Stab>, l: int, r: int, kind: nat, addr: nat)
    requires 0 <= l && r < |stabs|
    decreases r - l + 1
  {
    if l > r then false
    else
      var middle := (l + r) / 2;
      var m := LastOf(stabs, l, middle, kind);
      if m < l || stabs[m].value < addr then Drifts(stabs, middle + 1, r, kind, addr)
      else if stabs[m].value > addr then Drifts(stabs, l, m - 1, kind, addr)
      else exists i :: m <= i <= r && Is(stabs, i, kind) && stabs[i].value == addr + 1
  }

  /** Where the search, with its moving key, meets a stab at the last address of the address space: there the key wraps
      to 0. */
  function TopHit(stabs: seq<Stab>, l: int, r: int, kind: nat, key: nat): (hit: Option<int>)
    requires 0 <= l && r < |stabs|
    ensures hit.Some? ==> l <= hit.value <= r && Is(stabs, hit.value, kind) && stabs[hit.value].value == WORDS - 1
    decreases r - l + 1, WORDS - key
  {
    if l > r || key >= WORDS then None
    else
      var middle := (l + r) / 2;
      var m := LastOf(stabs, l, middle, kind);
      if m < l || stabs[m].value < key then TopHit(stabs, middle + 1, r, kind, key)
      else if stabs[m].value > key then TopHit(stabs, l, m - 1, kind, key)
      else if key == WORDS - 1 then Some(m)
      else TopHit(stabs, m, r, kind, key + 1)
  }

  /** The inputs for which the search promises something. */
  ghost predicate Searchable(stabs: seq<Stab>, lo: int, hi: int, kind: nat, addr: nat) {
    && 0 <= lo && hi < |stabs|
    && Ordered(stabs, lo, hi, kind)
    && exists i :: lo <= i <= hi && Is(stabs, i, kind) && stabs[i].value <= addr
  }

  /** When the answer is right. A search that meets no stab at the last address must not drift; one that meets such a stab
      gives the place before it, whatever is there. */
  predicate Reliable(stabs: seq<Stab>, lo: int, hi: int, kind: nat, addr: nat)
    requires 0 <= lo && hi < |stabs|
  {
    match TopHit(stabs, lo, hi, kind, addr)
    case None => !Drifts(stabs, lo, hi, kind, addr)
    case Some(m) => lo < m && Is(stabs, m - 1, kind) && stabs[m - 1].value <= addr < WORDS - 1
  }

  /** The search in [lo, hi] has come down to [l, r] with key `key`; `left` is the last hit, if there was one. */
  ghost predicate Narrowed(stabs: seq<Stab>, lo: int, hi: int, kind: nat, addr: nat, l: int, r: int, key: nat, left: int) {
    && 0 <= lo <= l && r <= hi < |stabs| && lo <= left <= l && addr <= key
    && (forall i :: lo <= i < l && Is(stabs, i, kind) ==> stabs[i].value < key)
    && (forall i :: r < i <= hi && Is(stabs, i, kind) ==> stabs[i].value > addr)
    && (r < hi ==> Is(stabs, r + 1, kind))
    && (left == lo || (Is(stabs, left, kind) && left <= r && stabs[left].value < key))
    && (left == l > lo ==> stabs[l].value < key)
    && Drifting(stabs, lo, hi, kind, addr, l, r, key)
  }

  /** Before the first exact match the drift is still ahead; after it, it is decided. */
  ghost predicate Drifting(stabs: seq<Stab>, lo: int, hi: int, kind: nat, addr: nat, l: int, r: int, key: nat)
    requires 0 <= lo <= l && r <= hi < |stabs|
  {
    if key == addr then Drifts(stabs, l, r, kind, addr) == Drifts(stabs, lo, hi, kind, addr)
    else if Drifts(stabs, lo, hi, kind, addr) then
      exists i :: lo <= i <= r && Is(stabs, i, kind) && stabs[i].value == addr + 1
    else key == addr + 1 && forall i :: l <= i <= r && Is(stabs, i, kind) ==> stabs[i].value != addr + 1
  }

  /** The search stands at [l, r] and its backward scan from the middle ended at m. */
  ghost predicate Probes(stabs: seq<Stab>, lo: int, hi: int, kind: nat, addr: nat, l: int, r: int, key: nat, left: int, middle: int, m: int) {
    && Searchable(stabs, lo, hi, kind, addr) && Narrowed(stabs, lo, hi, kind, addr, l, r, key, left)
    && l <= r && middle == (l + r) / 2 && m == LastOf(stabs, l, middle, kind)
  }

  /** No stab of the kind up to the middle. */
  lemma SkipNarrows(stabs: seq<Stab>, lo: int, hi: int, kind: nat, addr: nat, l: int, r: int, key: nat, left: int, middle: int, m: int)
    requires Probes(stabs, lo, hi, kind, addr, l, r, key, left, middle, m) && m < l
    ensures Narrowed(stabs, lo, hi, kind, addr, middle + 1, r, key, left)
  {
  }

  lemma BelowNarrows(stabs: seq<Stab>, lo: int, hi: int, kind: nat, addr: nat, l: int, r: int, key: nat, left: int, middle: int, m: int)
    requires Probes(stabs, lo, hi, kind, addr, l, r, key, left, middle, m) && m >= l && stabs[m].value < key
    ensures Narrowed(stabs, lo, hi, kind, addr, middle + 1, r, key, m)
  {
  }

  lemma AboveNarrows(stabs: seq<Stab>, lo: int, hi: int, kind: nat, addr: nat, l: int, r: int, key: nat, left: int, middle: int, m: int)
    requires Probes(stabs, lo, hi, kind, addr, l, r, key, left, middle, m) && m >= l && stabs[m].value > key
    ensures Narrowed(stabs, lo, hi, kind, addr, l, m - 1, key, left)
  {
    AboveDrifts(stabs, lo, hi, kind, addr, l, r, key, left, middle, m);
    hide Drifting, Drifts, LastOf;
  }

  lemma AboveDrifts(stabs: seq<Stab>, lo: int, hi: int, kind: nat, addr: nat, l: int, r: int, key: nat, left: int, middle: int, m: int)
    requires Probes(stabs, lo, hi, kind, addr, l, r, key, left, middle, m) && m >= l && stabs[m].value > key
    ensures Is(stabs, m, kind) && m <= r && Drifting(stabs, lo, hi, kind, addr, l, m - 1, key)
  {
    if key != addr && Drifts(stabs, lo, hi, kind, addr) {
      var i :| lo <= i <= r && Is(stabs, i, kind) && stabs[i].value == addr + 1;
      assert i < m;
    }
  }

  lemma EqualNarrows(stabs: seq<Stab>, lo: int, hi: int, kind: nat, addr: nat, l: int, r: int, key: nat, left: int, middle: int, m: int)
    requires Probes(stabs, lo, hi, kind, addr, l, r, key, left, middle, m) && m >= l && stabs[m].value == key < WORDS - 1
    ensures NextKey(key) == key + 1 && Narrowed(stabs, lo, hi, kind, addr, m, r, key + 1, m)
  {
  }

  /** After a match at the last address, from which every stab of the kind is above the new key 0. */
  ghost predicate Topped(stabs: seq<Stab>, hi: int, kind: nat, l: int, r: int, key: nat, left: int, m: int) {
    && l == left == m && key == 0 && m - 1 <= r <= hi < |stabs| && Is(stabs, m, kind)
    && forall i :: m <= i <= r && Is(stabs, i, kind) ==> stabs[i].value == WORDS - 1
  }

  lemma EqualTops(stabs: seq<Stab>, lo: int, hi: int, kind: nat, addr: nat, l: int, r: int, key: nat, left: int, middle: int, m: int)
    requires Probes(stabs, lo, hi, kind, addr, l, r, key, left, middle, m) && m >= l && stabs[m].value == key == WORDS - 1
    ensures Topped(stabs, hi, kind, m, r, NextKey(key), m, m)
  {
    forall i | m <= i <= r && Is(stabs, i, kind) ensures stabs[i].value == WORDS - 1 {
      assert stabs[m].value <= stabs[i].value;
    }
  }

  lemma ToppedStays(stabs: seq<Stab>, hi: int, kind: nat, l: int, r: int, key: nat, left: int, middle: int, m: int, top: int)
    requires Topped(stabs, hi, kind, l, r, key, left, top) && 0 <= l <= r && middle == (l + r) / 2 && m == LastOf(stabs, l, middle, kind)
    ensures m >= l && stabs[m].value > key && Topped(stabs, hi, kind, l, m - 1, key, left, top)
  {
  }

  /** `addr++` in 32 bits. */
  function NextKey(key: nat): (r: nat)
    ensures r < WORDS
  {
    (key + 1) % WORDS
  }

  /** The search has narrowed, and what it will still meet at the last address is what the whole search meets there. */
  ghost predicate Ahead(stabs: seq<Stab>, lo: int, hi: int, kind: nat, addr: nat, l: int, r: int, key: nat, left: int) {
    && key < WORDS && Narrowed(stabs, lo, hi, kind, addr, l, r, key, left)
    && TopHit(stabs, l, r, kind, key) == TopHit(stabs, lo, hi, kind, addr)
  }

  /** It has met it. */
  ghost predicate Past(stabs: seq<Stab>, lo: int, hi: int, kind: nat, addr: nat, l: int, r: int, key: nat, left: int) {
    && 0 <= lo && hi < |stabs|
    && var top := TopHit(stabs, lo, hi, kind, addr); top.Some? && Topped(stabs, hi, kind, l, r, key, left, top.value)
  }

  /** The search is on track, if its input is one that promises anything. */
  ghost predicate OnTrack(stabs: seq<Stab>, lo: int, hi: int, kind: nat, addr: nat, l: int, r: int, key: nat, left: int) {
    Searchable(stabs, lo, hi, kind, addr) ==>
      Ahead(stabs, lo, hi, kind, addr, l, r, key, left) || Past(stabs, lo, hi, kind, addr, l, r, key, left)
  }

  /** One turn of the search. */
  lemma TurnNarrows(stabs: seq<Stab>, lo: int, hi: int, kind: nat, addr: nat, l: int, r: int, key: nat, left: int, middle: int, m: int)
    requires 0 <= l <= r < |stabs| && OnTrack(stabs, lo, hi, kind, addr, l, r, key, left)
    requires middle == (l + r) / 2 && m == LastOf(stabs, l, middle, kind)
    ensures
      if m < l then OnTrack(stabs, lo, hi, kind, addr, middle + 1, r, key, left)
      else if stabs[m].value < key then OnTrack(stabs, lo, hi, kind, addr, middle + 1, r, key, m)
      else if stabs[m].value > key then OnTrack(stabs, lo, hi, kind, addr, l, m - 1, key, left)
      else OnTrack(stabs, lo, hi, kind, addr, m, r, NextKey(key), m)
  {
    hide Searchable, Ahead, Past, LastOf, NextKey;
    if Searchable(stabs, lo, hi, kind, addr) {
      if Ahead(stabs, lo, hi, kind, addr, l, r, key, left) {
        AheadTurn(stabs, lo, hi, kind, addr, l, r, key, left, middle, m);
      } else {
        PastTurn(stabs, lo, hi, kind, addr, l, r, key, left, middle, m);
      }
    }
  }

  lemma AheadTurn(stabs: seq<Stab>, lo: int, hi: int, kind: nat, addr: nat, l: int, r: int, key: nat, left: int, middle: int, m: int)
    requires Searchable(stabs, lo, hi, kind, addr) && Ahead(stabs, lo, hi, kind, addr, l, r, key, left)
    requires 0 <= l <= r < |stabs| && middle == (l + r) / 2 && m == LastOf(stabs, l, middle, kind)
    ensures m >= l ==> m < |stabs|
    ensures
      if m < l then Ahead(stabs, lo, hi, kind, addr, middle + 1, r, key, left)
      else if stabs[m].value < key then Ahead(stabs, lo, hi, kind, addr, middle + 1, r, key, m)
      else if stabs[m].value > key then Ahead(stabs, lo, hi, kind, addr, l, m - 1, key, left)
      else if key < WORDS - 1 then NextKey(key) == key + 1 && Ahead(stabs, lo, hi, kind, addr, m, r, NextKey(key), m)
      else Past(stabs, lo, hi, kind, addr, m, r, NextKey(key), m)
  {
    hide Searchable, Narrowed, LastOf, NextKey, TopHit, Topped;
    InBounds(stabs, lo, hi, kind, addr, l, middle);
    NextHit(stabs, l, r, kind, key);
    assert Probes(stabs, lo, hi, kind, addr, l, r, key, left, middle, m);
    hide Probes;
    if m < l { SkipNarrows(stabs, lo, hi, kind, addr, l, r, key, left, middle, m); }
    else if stabs[m].value < key { BelowNarrows(stabs, lo, hi, kind, addr, l, r, key, left, middle, m); }
    else if stabs[m].value > key { AboveNarrows(stabs, lo, hi, kind, addr, l, r, key, left, middle, m); }
    else if key < WORDS - 1 { EqualNarrows(stabs, lo, hi, kind, addr, l, r, key, left, middle, m); }
    else { EqualTops(stabs, lo, hi, kind, addr, l, r, key, left, middle, m); }
  }

  lemma InBounds(stabs: seq<Stab>, lo: int, hi: int, kind: nat, addr: nat, l: int, middle: int)
    requires Searchable(stabs, lo, hi, kind, addr) && 0 <= l <= middle
    ensures 0 <= lo && hi < |stabs| && LastOf(stabs, l, middle, kind) <= middle
  {
  }

  lemma PastTurn(stabs: seq<Stab>, lo: int, hi: int, kind: nat, addr: nat, l: int, r: int, key: nat, left: int, middle: int, m: int)
    requires Past(stabs, lo, hi, kind, addr, l, r, key, left)
    requires 0 <= l <= r < |stabs| && middle == (l + r) / 2 && m == LastOf(stabs, l, middle, kind)
    ensures l <= m < |stabs| && stabs[m].value > key && Past(stabs, lo, hi, kind, addr, l, m - 1, key, left)
  {
    var top := TopHit(stabs, lo, hi, kind, addr);
    hide LastOf, TopHit;
    ToppedStays(stabs, hi, kind, l, r, key, left, middle, m, top.value);
  }

  lemma NextHit(stabs: seq<Stab>, l: int, r: int, kind: nat, key: nat)
    requires 0 <= l <= r < |stabs| && key < WORDS
    ensures var middle := (l + r) / 2; var m := LastOf(stabs, l, middle, kind);
      TopHit(stabs, l, r, kind, key) ==
        if m < l || stabs[m].value < key then TopHit(stabs, middle + 1, r, kind, key)
        else if stabs[m].value > key then TopHit(stabs, l, m - 1, kind, key)
        else if key == WORDS - 1 then Some(m)
        else TopHit(stabs, m, r, kind, key + 1)
  {
  }

  /** The final scan: down from r to the last stab of the kind above `left`, or to `left`. */
  predicate ScannedBack(stabs: seq<Stab>, left: int, r: int, kind: nat, found: int) {
    && found <= r && (if left <= r then left <= found else found == r) && (found > left ==> Is(stabs, found, kind))
    && forall i :: found < i <= r && i > left ==> !Is(stabs, i, kind)
  }

  lemma NarrowedStart(stabs: seq<Stab>, lo: int, hi: int, kind: nat, addr: nat)
    requires addr < WORDS
    ensures OnTrack(stabs, lo, hi, kind, addr, lo, hi, addr, lo)
    ensures Searchable(stabs, lo, hi, kind, addr) ==> !NoneBefore(stabs, lo, hi + 1, kind)
    ensures NoneBefore(stabs, lo, lo, kind)
  {
  }

  lemma TrackBrackets(stabs: seq<Stab>, lo: int, hi: int, kind: nat, addr: nat, l: int, r: int, key: nat, left: int, found: int)
    requires OnTrack(stabs, lo, hi, kind, addr, l, r, key, left) && l > r && ScannedBack(stabs, left, r, kind, found)
    ensures Searchable(stabs, lo, hi, kind, addr) ==> (Brackets(stabs, lo, hi, kind, addr, found, r) <==> Reliable(stabs, lo, hi, kind, addr))
    ensures found <= r
  {
    if Searchable(stabs, lo, hi, kind, addr) {
      if Past(stabs, lo, hi, kind, addr, l, r, key, left) {
        ToppedBrackets(stabs, lo, hi, kind, addr, l, r, key, left, found, TopHit(stabs, lo, hi, kind, addr).value);
      } else {
        assert TopHit(stabs, lo, hi, kind, addr) == TopHit(stabs, l, r, kind, key) == None;
        NarrowedBrackets(stabs, lo, hi, kind, addr, l, r, key, left, found);
      }
    }
  }

  /** After a match at the last address the search ends just before it. */
  lemma ToppedBrackets(stabs: seq<Stab>, lo: int, hi: int, kind: nat, addr: nat, l: int, r: int, key: nat, left: int, found: int, m: int)
    requires Topped(stabs, hi, kind, l, r, key, left, m) && l > r && ScannedBack(stabs, left, r, kind, found)
    requires lo <= m <= hi && stabs[m].value == WORDS - 1
    ensures Brackets(stabs, lo, hi, kind, addr, found, r) <==> lo < m && Is(stabs, m - 1, kind) && stabs[m - 1].value <= addr < WORDS - 1
  {
  }

  /** An exact match moves either the left bound or the key past itself. */
  function AtKey(stabs: seq<Stab>, l: int, kind: nat, key: nat): nat {
    if Is(stabs, l, kind) && stabs[l].value == key then 1 else 0
  }

  /** The backward loop either misses or stops at a stab of the kind; a match at l itself is used up. */
  lemma Landed(stabs: seq<Stab>, l: int, middle: int, kind: nat, key: nat)
    requires 0 <= l <= middle < |stabs| && key < WORDS
    ensures var m := LastOf(stabs, l, middle, kind);
      && l - 1 <= m <= middle && (m >= l ==> Is(stabs, m, kind))
      && (m == l && stabs[m].value == key ==> AtKey(stabs, l, kind, key) == 1 && AtKey(stabs, l, kind, NextKey(key)) == 0)
  {
  }

  /** What the final scan makes of it. */
  lemma NarrowedBrackets(stabs: seq<Stab>, lo: int, hi: int, kind: nat, addr: nat, l: int, r: int, key: nat, left: int, found: int)
    requires Searchable(stabs, lo, hi, kind, addr) && Narrowed(stabs, lo, hi, kind, addr, l, r, key, left) && l > r
    requires ScannedBack(stabs, left, r, kind, found)
    ensures Brackets(stabs, lo, hi, kind, addr, found, r) <==> !Drifts(stabs, lo, hi, kind, addr)
  {
  }

  /** The inner loop: back from `middle` to the last stab of the kind, or past l. */
  method SearchBack(stabs: seq<Stab>, l: int, middle: int, kind: nat) returns (m: int)
    requires 0 <= l <= middle < |stabs|
    ensures m == LastOf(stabs, l, middle, kind)
  {
    m := middle;
    while m >= l && stabs[m].kind != kind
      invariant l - 1 <= m <= middle && LastOf(stabs, l, m, kind) == LastOf(stabs, l, middle, kind)
    {
      m := m - 1;
    }
  }

  /** The loop at the end. */
  method ScanBack(stabs: seq<Stab>, left: int, right: int, kind: nat) returns (l: int)
    requires 0 <= left && right < |stabs|
    ensures ScannedBack(stabs, left, right, kind, l)
  {
    l := right;
    while l > left && stabs[l].kind != kind
      invariant l <= right && (if left <= right then left <= l else l == right) && forall i :: l < i <= right && i > left ==> !Is(stabs, i, kind)
    {
      l := l - 1;
    }
  }

  /** No stab of the kind in [lo, l). */
  predicate NoneBefore(stabs: seq<Stab>, lo: int, l: int, kind: nat) {
    forall i :: lo <= i < l ==> !Is(stabs, i, kind)
  }

  lemma StillNone(stabs: seq<Stab>, lo: int, l: int, middle: int, kind: nat)
    requires NoneBefore(stabs, lo, l, kind) && LastOf(stabs, l, middle, kind) < l
    ensures NoneBefore(stabs, lo, middle + 1, kind)
  {
  }

  lemma HitOrNone(stabs: seq<Stab>, lo: int, l: int, hi: int, kind: nat, hit: int)
    ensures lo <= hit <= hi && Is(stabs, hit, kind) ==> !NoneBefore(stabs, lo, hi + 1, kind)
    ensures NoneBefore(stabs, lo, l, kind) && l > hi ==> NoneBefore(stabs, lo, hi + 1, kind)
  {
  }

  /** The search variables of stab_binsearch; *region_right is always r. */
  datatype Search = Search(l: int, r: int, key: nat, left: int, anyMatches: bool)

  /** What the search knows at every turn. */
  ghost predicate Knows(stabs: seq<Stab>, lo: int, hi: int, kind: nat, addr: nat, s: Search) {
    && 0 <= lo <= s.left && lo <= s.l && s.r <= hi < |stabs| && s.key < WORDS && (s.l <= hi + 1 || s.l == lo)
    && OnTrack(stabs, lo, hi, kind, addr, s.l, s.r, s.key, s.left)
    && (!s.anyMatches ==> s.left == lo && s.r == hi && NoneBefore(stabs, lo, s.l, kind))
    && (s.anyMatches ==> !NoneBefore(stabs, lo, hi + 1, kind))
  }

  /** One turn of the main loop. */
  method Turn(stabs: seq<Stab>, kind: nat, s: Search, ghost lo: int, ghost hi: int, ghost addr: nat) returns (s': Search)
    requires Knows(stabs, lo, hi, kind, addr, s) && s.l <= s.r
    ensures Knows(stabs, lo, hi, kind, addr, s')
    ensures s'.r - s'.l < s.r - s.l || (s'.r - s'.l == s.r - s.l && AtKey(stabs, s'.l, kind, s'.key) < AtKey(stabs, s.l, kind, s.key))
  {
    hide OnTrack, LastOf, NoneBefore, AtKey;
    var middle := (s.l + s.r) / 2;
    var m := SearchBack(stabs, s.l, middle, kind);
    Landed(stabs, s.l, middle, kind, s.key);
    TurnNarrows(stabs, lo, hi, kind, addr, s.l, s.r, s.key, s.left, middle, m);
    HitOrNone(stabs, lo, s.l, hi, kind, m);
    if m < s.l {
      if !s.anyMatches { StillNone(stabs, lo, s.l, middle, kind); }
      return s.(l := middle + 1);
    }
    if stabs[m].value < s.key {
      return s.(left := m, l := middle + 1, anyMatches := true);
    } else if stabs[m].value > s.key {
      return s.(r := m - 1, anyMatches := true);
    } else {
      return s.(left := m, l := m, key := NextKey(s.key), anyMatches := true);
    }
  }

  /** stab_binsearch. It ends for every input. The documented sign that nothing matches, left > right, is given exactly if
      the range holds no stab of the kind at all. With ordered addresses, at least one of which is at or below
      `addr`, the answer is right exactly if the input is reliable: the moving key neither drifts nor wraps. */
  method StabBinsearch(stabs: seq<Stab>, regionLeft: int, regionRight: int, kind: nat, addr: nat)
    returns (left: int, right: int)
    requires 0 <= regionLeft && regionRight < |stabs| && addr < WORDS
    ensures left > right <==> NoneBefore(stabs, regionLeft, regionRight + 1, kind)
    ensures Searchable(stabs, regionLeft, regionRight, kind, addr) ==>
      (Brackets(stabs, regionLeft, regionRight, kind, addr, left, right) <==>
       Reliable(stabs, regionLeft, regionRight, kind, addr))
  {
    var s := Search(regionLeft, regionRight, addr, regionLeft, false);
    NarrowedStart(stabs, regionLeft, regionRight, kind, addr);
    hide OnTrack, NoneBefore, AtKey, Reliable;
    while s.l <= s.r
      invariant Knows(stabs, regionLeft, regionRight, kind, addr, s)
      decreases s.r - s.l + 1, AtKey(stabs, s.l, kind, s.key)
    {
      s := Turn(stabs, kind, s, regionLeft, regionRight, addr);
    }
    left, right := s.left, s.r;
    HitOrNone(stabs, regionLeft, s.l, regionRight, kind, regionLeft - 1);
    if !s.anyMatches {
      right := left - 1;
    } else {
      var found := ScanBack(stabs, left, right, kind);
      TrackBrackets(stabs, regionLeft, regionRight, kind, addr, s.l, s.r, s.key, left, found);
      left := found;
    }
  }

  /** No stab of the kind in [l, r] equals `v`. */
  predicate NoneAt(stabs: seq<Stab>, l: int, r: int, kind: nat, v: nat) {
    forall i :: l <= i <= r && Is(stabs, i, kind) ==> stabs[i].value != v
  }

  lemma NoneAtWithin(stabs: seq<Stab>, l: int, r: int, l': int, r': int, kind: nat, v: nat)
    requires NoneAt(stabs, l, r, kind, v) && l <= l' && r' <= r
    ensures NoneAt(stabs, l', r', kind, v)
  {
  }

  lemma NextDrift(stabs: seq<Stab>, l: int, r: int, kind: nat, addr: nat)
    requires 0 <= l <= r < |stabs|
    ensures var middle := (l + r) / 2; var m := LastOf(stabs, l, middle, kind);
      && l - 1 <= m <= middle < r + 1 && (m >= l ==> Is(stabs, m, kind))
      && Drifts(stabs, l, r, kind, addr) ==
         if m < l || stabs[m].value < addr then Drifts(stabs, middle + 1, r, kind, addr)
         else if stabs[m].value > addr then Drifts(stabs, l, m - 1, kind, addr)
         else !NoneAt(stabs, m, r, kind, addr + 1)
  {
  }

  /** Enough to keep the key from drifting: no stab of the kind equals `addr`, or none equals `addr + 1`. */
  lemma {:induction false} NoDrift(stabs: seq<Stab>, l: int, r: int, kind: nat, addr: nat, v: nat)
    requires 0 <= l && r < |stabs| && (v == addr || v == addr + 1) && NoneAt(stabs, l, r, kind, v)
    ensures !Drifts(stabs, l, r, kind, addr)
    decreases r - l + 1
  {
    if l <= r {
      NextDrift(stabs, l, r, kind, addr);
      var middle := (l + r) / 2;
      var m := LastOf(stabs, l, middle, kind);
      assert m >= l ==> stabs[m].value != v;
      hide Drifts, LastOf, NoneAt;
      if m < l || stabs[m].value < addr {
        NoneAtWithin(stabs, l, r, middle + 1, r, kind, v);
        NoDrift(stabs, middle + 1, r, kind, addr, v);
      } else if stabs[m].value > addr {
        NoneAtWithin(stabs, l, r, l, m - 1, kind, v);
        NoDrift(stabs, l, m - 1, kind, addr, v);
      } else {
        NoneAtWithin(stabs, l, r, m, r, kind, v);
      }
    }
  }

  /** So a range without a stab at the last address, and without one of these two, is searched reliably. */
  lemma ReliableUnless(stabs: seq<Stab>, lo: int, hi: int, kind: nat, addr: nat, v: nat)
    requires 0 <= lo && hi < |stabs| && (v == addr || v == addr + 1)
    requires NoneAt(stabs, lo, hi, kind, v) && NoneAt(stabs, lo, hi, kind, WORDS - 1)
    ensures Reliable(stabs, lo, hi, kind, addr)
  {
    NoDrift(stabs, lo, hi, kind, addr, v);
  }

  /** Two stabs at 10 and 11: the search for 10 drifts on to 11. With 20 after 11 instead of before, the same two
      addresses are found in the other order, and it does not. */
  lemma DriftExample(kind: nat)
    ensures Drifts([Stab(kind, 10), Stab(kind, 11)], 0, 1, kind, 10)
    ensures !Drifts([Stab(kind, 9), Stab(kind, 10), Stab(kind, 11), Stab(kind, 20), Stab(kind, 30)], 0, 4, kind, 10)
  {
    var a := [Stab(kind, 10), Stab(kind, 11)];
    assert Is(a, 1, kind) && a[1].value == 10 + 1;
    var b := [Stab(kind, 9), Stab(kind, 10), Stab(kind, 11), Stab(kind, 20), Stab(kind, 30)];
    assert LastOf(b, 0, 2, kind) == 2 && LastOf(b, 0, 0, kind) == 0 && LastOf(b, 1, 1, kind) == 1;
    assert !Drifts(b, 1, 1, kind, 10);
    assert !Drifts(b, 0, 1, kind, 10);
  }

  /** One stab, at the last address, and a search for it: the key wraps to 0 and the answer is the place before the range. */
  lemma TopExample(kind: nat)
    ensures TopHit([Stab(kind, 0xFFFF_FFFF)], 0, 0, kind, 0xFFFF_FFFF) == Some(0)
    ensures Searchable([Stab(kind, 0xFFFF_FFFF)], 0, 0, kind, 0xFFFF_FFFF) && !Reliable([Stab(kind, 0xFFFF_FFFF)], 0, 0, kind, 0xFFFF_FFFF)
  {
    var a := [Stab(kind, 0xFFFF_FFFF)];
    assert LastOf(a, 0, 0, kind) == 0 && Is(a, 0, kind);
  }
}
