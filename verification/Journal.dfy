/** What the reader relies on from sdjournal: a position in a history of entries, seen through matches.
    This is the whole contract; the library itself is not part of the model. */
module Journal {
  import opened Prelude

  datatype Entry = Entry(cursor: string, fields: map<string, string>, monotonic: nat, realtime: nat)

  datatype MatchOp = AddMatch(text: string) | AddDisjunction

  /** How the library evaluates a match list on an entry. */
  type Filter = (seq<MatchOp>, Entry) -> bool

  /** On an entry, or in the gap before the entry with an index. */
  datatype Position = Gap(at: nat) | On(at: nat)

  /** An open handle: the oldest entry it can see, its match list and its position. Indices count from the
      start of the history, so they keep their meaning when old entries are dropped. */
  datatype Handle = Handle(head: nat, matches: seq<MatchOp>, pos: Position)

  /** A position a handle can have in a history of `size` entries. */
  predicate InBounds(j: Handle, size: nat) {
    j.head <= j.pos.at <= size && (j.pos.On? ==> j.pos.at < size)
  }

  /** The indices in lo..hi of entries that match. */
  function Visible(filter: Filter, ops: seq<MatchOp>, h: seq<Entry>, lo: nat, hi: nat): seq<nat>
    requires hi <= |h|
    decreases hi - lo
  {
    if lo >= hi then []
    else (if filter(ops, h[lo]) then [lo] else []) + Visible(filter, ops, h, lo + 1, hi)
  }

  /** Where the entries after and before a position begin. */
  function After(pos: Position): nat { if pos.On? then pos.at + 1 else pos.at }

  function Ahead(j: Handle, h: seq<Entry>, filter: Filter): seq<nat> {
    Visible(filter, j.matches, h, After(j.pos), |h|)
  }

  function Behind(j: Handle, h: seq<Entry>, filter: Filter): seq<nat>
    requires j.pos.at <= |h|
  {
    Visible(filter, j.matches, h, j.head, j.pos.at)
  }

  /** Move forward over up to n matching entries; the count moved. Without any the position stays. */
  function NextSkip(j: Handle, h: seq<Entry>, filter: Filter, n: nat): (r: (Handle, nat))
    requires InBounds(j, |h|)
    ensures InBounds(r.0, |h|) && r.1 <= n && (r.1 > 0 ==> r.0.pos.On?)
  {
    var v := Ahead(j, h, filter);
    var m := Min(n, |v|);
    if m == 0 then (j, 0)
    else
      VisibleCut(filter, j.matches, h, After(j.pos), |h|, m - 1);
      (j.(pos := On(v[m - 1])), m)
  }

  /** Move backwards over up to n matching entries. */
  function PreviousSkip(j: Handle, h: seq<Entry>, filter: Filter, n: nat): (r: (Handle, nat))
    requires InBounds(j, |h|)
    ensures InBounds(r.0, |h|) && r.1 <= n && (r.1 > 0 ==> r.0.pos.On?)
  {
    var v := Behind(j, h, filter);
    var m := Min(n, |v|);
    if m == 0 then (j, 0)
    else
      VisibleCut(filter, j.matches, h, j.head, j.pos.at, |v| - m);
      (j.(pos := On(v[|v| - m])), m)
  }

  function SeekTail(j: Handle, h: seq<Entry>): Handle {
    j.(pos := Gap(|h|))
  }

  function IndexOf(h: seq<Entry>, lo: nat, cursor: string): (i: nat)
    requires lo <= |h|
    ensures lo <= i <= |h| && (i < |h| ==> h[i].cursor == cursor)
    ensures forall k :: lo <= k < i ==> h[k].cursor != cursor
    decreases |h| - lo
  {
    if lo == |h| || h[lo].cursor == cursor then lo else IndexOf(h, lo + 1, cursor)
  }

  /** Seek to the entry with a cursor; for a cursor the handle cannot see, to wherever the library lands. */
  function SeekTo(j: Handle, h: seq<Entry>, cursor: string, landing: nat): (r: Handle)
    requires j.head <= |h|
    ensures j.head <= r.pos.at <= |h| && r.pos.Gap?
  {
    var i := IndexOf(h, j.head, cursor);
    j.(pos := Gap(if i < |h| then i else Min(Max(landing, j.head), |h|)))
  }

  ghost predicate DistinctCursors(h: seq<Entry>) {
    forall i, k :: 0 <= i < k < |h| ==> h[i].cursor != h[k].cursor
  }

  lemma {:induction false} VisibleSplit(filter: Filter, ops: seq<MatchOp>, h: seq<Entry>, lo: nat, m: nat, hi: nat)
    requires lo <= m <= hi <= |h|
    ensures Visible(filter, ops, h, lo, hi) == Visible(filter, ops, h, lo, m) + Visible(filter, ops, h, m, hi)
    decreases m - lo
  {
    if lo < m {
      VisibleSplit(filter, ops, h, lo + 1, m, hi);
    }
  }

  lemma VisibleFirst(filter: Filter, ops: seq<MatchOp>, h: seq<Entry>, lo: nat, hi: nat, e: Entry)
    requires lo < hi <= |h| && h[lo] == e
    ensures Visible(filter, ops, h, lo, hi)
         == (if filter(ops, e) then [lo] else []) + Visible(filter, ops, h, lo + 1, hi)
  {
  }

  lemma {:induction false} VisibleGrow(filter: Filter, ops: seq<MatchOp>, h: seq<Entry>, grown: seq<Entry>,
                                       lo: nat, hi: nat)
    requires hi <= |h| && h <= grown
    ensures Visible(filter, ops, grown, lo, hi) == Visible(filter, ops, h, lo, hi)
    decreases hi - lo
  {
    if lo < hi {
      VisibleGrow(filter, ops, h, grown, lo + 1, hi);
      VisibleFirst(filter, ops, h, lo, hi, h[lo]);
      VisibleFirst(filter, ops, grown, lo, hi, h[lo]);
    }
  }

  /** The k-th matching entry cuts the list at its own index. */
  lemma {:induction false} VisibleCut(filter: Filter, ops: seq<MatchOp>, h: seq<Entry>, lo: nat, hi: nat, k: nat)
    requires hi <= |h| && k < |Visible(filter, ops, h, lo, hi)|
    ensures var v := Visible(filter, ops, h, lo, hi);
      && lo <= v[k] < hi && filter(ops, h[v[k]])
      && Visible(filter, ops, h, lo, v[k]) == v[..k]
      && Visible(filter, ops, h, v[k], hi) == v[k..]
      && Visible(filter, ops, h, v[k] + 1, hi) == v[k + 1..]
    decreases hi - lo
  {
    var v := Visible(filter, ops, h, lo, hi);
    VisibleInside(filter, ops, h, lo, hi, k);
    VisibleRank(filter, ops, h, lo, v[k], hi, v, k);
    VisibleFirst(filter, ops, h, v[k], hi, h[v[k]]);
    assert v[k..] == [v[k]] + v[k + 1..];
  }

  lemma {:induction false} VisibleInside(filter: Filter, ops: seq<MatchOp>, h: seq<Entry>, lo: nat, hi: nat, k: nat)
    requires hi <= |h| && k < |Visible(filter, ops, h, lo, hi)|
    ensures var i := Visible(filter, ops, h, lo, hi)[k]; lo <= i < hi && filter(ops, h[i])
    decreases hi - lo
  {
    VisibleFirst(filter, ops, h, lo, hi, h[lo]);
    var hit := if filter(ops, h[lo]) then 1 else 0;
    if k >= hit {
      VisibleInside(filter, ops, h, lo + 1, hi, k - hit);
    }
  }

  lemma {:induction false} VisibleRank(filter: Filter, ops: seq<MatchOp>, h: seq<Entry>, lo: nat, at: nat, hi: nat,
                                       v: seq<nat>, k: nat)
    requires at < hi <= |h| && v == Visible(filter, ops, h, lo, hi) && k < |v| && v[k] == at
    ensures Visible(filter, ops, h, lo, at) == v[..k] && Visible(filter, ops, h, at, hi) == v[k..]
    decreases hi - lo
  {
    VisibleInside(filter, ops, h, lo, hi, k);
    VisibleFirst(filter, ops, h, lo, hi, h[lo]);
    var rest := Visible(filter, ops, h, lo + 1, hi);
    if lo == at {
      if k > 0 {
        VisibleInside(filter, ops, h, lo + 1, hi, k - 1);
      }
    } else {
      var hit := if filter(ops, h[lo]) then 1 else 0;
      VisibleRank(filter, ops, h, lo + 1, at, hi, rest, k - hit);
      VisibleFirst(filter, ops, h, lo, at, h[lo]);
    }
  }
}
