/**
 What replaying the log files after a crash rebuilds (db/db_impl.cc: Recover, RecoverLogFile).
 */
module Recovery {
  import opened DbFormat
  import opened Views
  import opened VersionModel
  import opened Install
  import opened Flush
  import opened Database

  // ---------------------------------------------------------------------------
  // Stretches of the history in the log

  lemma {:induction false} LoggedAt(h: seq<Op>, lo: nat, hi: nat)
    requires lo <= hi <= |h|
    ensures |Logged(h, lo, hi)| == hi - lo
    ensures forall i :: 0 <= i < hi - lo ==> Logged(h, lo, hi)[i] == EntryAt(h, lo + i)
    decreases hi - lo
  {
    if lo < hi {
      LoggedAt(h, lo, hi - 1);
    }
  }

  lemma LoggedJoin(h: seq<Op>, lo: nat, mid: nat, hi: nat)
    requires lo <= mid <= hi <= |h|
    ensures Logged(h, lo, mid) + Logged(h, mid, hi) == Logged(h, lo, hi)
  {
    LoggedAt(h, lo, mid);
    LoggedAt(h, mid, hi);
    LoggedAt(h, lo, hi);
  }

  lemma LoggedSame(h: seq<Op>, h': seq<Op>, lo: nat, hi: nat)
    requires lo <= hi <= |h| && hi <= |h'| && h[..hi] == h'[..hi]
    ensures Logged(h, lo, hi) == Logged(h', lo, hi)
  {
    LoggedAt(h, lo, hi);
    LoggedAt(h', lo, hi);
    forall i | lo <= i < hi ensures h[i] == h'[i] {
      assert h[i] == h[..hi][i] && h'[i] == h'[..hi][i];
    }
  }

  /** Losing the end of a stretch is losing the end of the history. */
  lemma LoggedTorn(h: seq<Op>, lo: nat, n: nat)
    requires lo <= n <= |h|
    ensures |Logged(h, lo, |h|)| == |h| - lo && Logged(h, lo, |h|)[..n - lo] == Logged(h[..n], lo, n)
  {
    LoggedAt(h, lo, |h|);
    LoggedAt(h[..n], lo, n);
  }

  lemma LoggedElems(h: seq<Op>, lo: nat, hi: nat)
    requires lo <= hi <= |h|
    ensures Elems(Logged(h, lo, hi)) == Writes(h, lo, hi)
  {
    LoggedAt(h, lo, hi);
    forall i | lo <= i < hi ensures EntryAt(h, i) in Logged(h, lo, hi) {
      assert Logged(h, lo, hi)[i - lo] == EntryAt(h, i);
    }
  }

  /** Replaying a stretch finds the number of its last operation. */
  lemma {:induction false} MaxOfLogged(h: seq<Op>, lo: nat, hi: nat, s: nat)
    requires lo <= s <= hi <= |h|
    ensures MaxSequence(Logged(h, lo, hi), s) == if lo < hi then hi else s
    decreases hi
  {
    if lo < hi {
      var es := Logged(h, lo, hi);
      assert es[..|es| - 1] == Logged(h, lo, hi - 1);
      if s < hi {
        MaxOfLogged(h, lo, hi - 1, s);
      } else {
        MaxAtMost(h, lo, hi - 1, s);
      }
    }
  }

  lemma {:induction false} MaxAtMost(h: seq<Op>, lo: nat, hi: nat, s: nat)
    requires lo <= hi <= s && hi <= |h|
    ensures MaxSequence(Logged(h, lo, hi), s) == s
    decreases hi
  {
    if lo < hi {
      var es := Logged(h, lo, hi);
      assert es[..|es| - 1] == Logged(h, lo, hi - 1);
      MaxAtMost(h, lo, hi - 1, s);
    }
  }

  // ---------------------------------------------------------------------------
  // Replaying log files

  predicate SameLog(logs: map<nat, seq<Entry>>, logs': map<nat, seq<Entry>>, n: nat)
  {
    (n in logs <==> n in logs') && (n in logs && n in logs' ==> logs[n] == logs'[n])
  }

  lemma {:induction false} TailSame(logs: map<nat, seq<Entry>>, logs': map<nat, seq<Entry>>, lo: nat, hi: nat)
    requires forall n: nat :: lo <= n < hi ==> SameLog(logs, logs', n)
    ensures LogTail(logs, lo, hi) == LogTail(logs', lo, hi)
    decreases hi
  {
    if lo < hi {
      assert SameLog(logs, logs', hi - 1);
      TailSame(logs, logs', lo, hi - 1);
    }
  }

  /** Numbers that no log file has contribute nothing. */
  lemma {:induction false} TailGap(logs: map<nat, seq<Entry>>, lo: nat, mid: nat, hi: nat)
    requires lo <= mid <= hi && forall n :: n in logs ==> !(mid <= n < hi)
    ensures LogTail(logs, lo, hi) == LogTail(logs, lo, mid)
    decreases hi
  {
    if mid < hi {
      TailGap(logs, lo, mid, hi - 1);
    }
  }

  /** The newest log file comes last. */
  lemma TailEndsWith(logs: map<nat, seq<Entry>>, lo: nat, newest: nat, hi: nat)
    requires lo <= newest < hi && newest in logs && forall n :: n in logs ==> n <= newest
    ensures LogTail(logs, lo, hi) == LogTail(logs, lo, newest) + logs[newest]
  {
    TailGap(logs, lo, newest + 1, hi);
  }

  // ---------------------------------------------------------------------------
  // The tables that the replay writes

  /** Every position of the replayed log is in some piece. */
  lemma PieceOf(es: seq<Entry>, pieces: seq<File>, cuts: seq<nat>, p: nat) returns (i: nat)
    requires Pieces(es, pieces, cuts) && p < |es|
    ensures i < |pieces| && cuts[i] <= p < cuts[i + 1]
  {
    i := 0;
    while i < |pieces| && cuts[i + 1] <= p
      invariant i <= |pieces| && cuts[i] <= p
    {
      i := i + 1;
    }
  }

  lemma PieceEntries(es: seq<Entry>, pieces: seq<File>, cuts: seq<nat>)
    requires Pieces(es, pieces, cuts)
    ensures EntriesOf(pieces) == Elems(es)
  {
    forall e | e in EntriesOf(pieces) ensures e in Elems(es) {
      var f :| f in pieces && e in f.entries;
      var i :| 0 <= i < |pieces| && pieces[i] == f;
      assert e in Elems(es[cuts[i]..cuts[i + 1]]);
    }
    forall e | e in Elems(es) ensures e in EntriesOf(pieces) {
      var p :| 0 <= p < |es| && es[p] == e;
      var i := PieceOf(es, pieces, cuts, p);
      assert es[cuts[i]..cuts[i + 1]][p - cuts[i]] == e;
      assert e in Elems(pieces[i].entries);
      InFile(pieces, pieces[i], e);
    }
  }

  lemma PiecesValid(es: seq<Entry>, pieces: seq<File>, cuts: seq<nat>)
    requires Pieces(es, pieces, cuts)
    ensures forall f :: f in pieces ==> ValidFile(f)
  {
  }

  /** The sequence numbers of a piece are those of its stretch of the log. */
  lemma PieceNumbers(h: seq<Op>, n: nat, n': nat, pieces: seq<File>, cuts: seq<nat>, i: nat, e: Entry)
    requires n <= n' <= |h| && Pieces(Logged(h, n, n'), pieces, cuts)
    requires i < |pieces| && e in Elems(pieces[i].entries)
    ensures n + cuts[i] < e.key.seqno <= n + cuts[i + 1]
  {
    hide Logged;
    var es := Logged(h, n, n');
    LoggedAt(h, n, n');
    assert e in Elems(es[cuts[i]..cuts[i + 1]]);
    var p :| cuts[i] <= p < cuts[i + 1] && es[p] == e;
    assert e == EntryAt(h, n + p);
  }

  /** Later pieces hold newer entries. */
  lemma PiecesInOrder(h: seq<Op>, n: nat, n': nat, pieces: seq<File>, cuts: seq<nat>, f: File, g: File)
    requires n <= n' <= |h| && Pieces(Logged(h, n, n'), pieces, cuts)
    requires f in pieces && g in pieces && f.number > g.number
    ensures Above(Elems(f.entries), Elems(g.entries))
  {
    hide Logged, Elems, ValidFile;
    var i :| 0 <= i < |pieces| && pieces[i] == f;
    var j :| 0 <= j < |pieces| && pieces[j] == g;
    assert j < i && cuts[j + 1] <= cuts[i];
    forall e, x | e in Elems(f.entries) && x in Elems(g.entries) ensures e.key.seqno > x.key.seqno {
      PieceNumbers(h, n, n', pieces, cuts, i, e);
      PieceNumbers(h, n, n', pieces, cuts, j, x);
    }
  }

  // ---------------------------------------------------------------------------
  // The recovered version

  ghost predicate HeldRecovered(v: Version, pieces: seq<File>, l: nat, g: File)
    requires l < |v.levels|
  {
    g in v.levels[l] || (l == 0 && g in pieces)
  }

  lemma RecoverLevels(v: Version, pieces: seq<File>, v': Version)
    requires Edited(v, RecoverEdit(pieces), v')
    ensures forall l, g :: 0 <= l < NUM_LEVELS ==> (g in v'.levels[l] <==> HeldRecovered(v, pieces, l, g))
  {
    var e := RecoverEdit(pieces);
    forall l, g | 0 <= l < NUM_LEVELS ensures g in v'.levels[l] <==> HeldRecovered(v, pieces, l, g) {
      assert (l, g) in e.added <==> l == 0 && g in pieces;
    }
  }

  lemma RecoverEntries(v: Version, pieces: seq<File>, v': Version)
    requires Edited(v, RecoverEdit(pieces), v')
    ensures EntriesOf(v'.levels[0]) == EntriesOf(v.levels[0]) + EntriesOf(pieces)
    ensures forall l :: 1 <= l < NUM_LEVELS ==> EntriesOf(v'.levels[l]) == EntriesOf(v.levels[l])
    ensures Contents(v') == Contents(v) + EntriesOf(pieces)
  {
    RecoverLevels(v, pieces, v');
    forall l | 1 <= l < NUM_LEVELS ensures EntriesOf(v'.levels[l]) == EntriesOf(v.levels[l]) {
      assert forall g :: g in v'.levels[l] <==> HeldRecovered(v, pieces, l, g);
    }
    assert forall g :: g in v'.levels[0] <==> HeldRecovered(v, pieces, 0, g);
    assert EntriesOf(v'.levels[0]) == EntriesOf(v.levels[0]) + EntriesOf(pieces);
    forall e ensures e in Contents(v') <==> e in Contents(v) || e in EntriesOf(pieces) {
      if e in EntriesOf(pieces) {
        assert e in EntriesOf(v'.levels[0]);
      }
      if e in Contents(v) {
        var l :| 0 <= l < NUM_LEVELS && e in EntriesOf(v.levels[l]);
        assert e in EntriesOf(v'.levels[l]);
      }
    }
  }

  /** The pieces carry numbers that the version does not use, each its own. */
  ghost predicate FreshPieces(v: Version, pieces: seq<File>, next: nat)
  {
    && NumbersBelow(v, next)
    && (forall f :: f in pieces ==> next <= f.number)
    && (forall i, j :: 0 <= i < j < |pieces| ==> pieces[i].number < pieces[j].number)
  }

  lemma SamePiece(pieces: seq<File>, f: File, g: File)
    requires forall i, j :: 0 <= i < j < |pieces| ==> pieces[i].number < pieces[j].number
    requires f in pieces && g in pieces && f.number == g.number
    ensures f == g
  {
    var i :| 0 <= i < |pieces| && pieces[i] == f;
    var j :| 0 <= j < |pieces| && pieces[j] == g;
  }

  lemma OneNumber(v: Version, pieces: seq<File>, next: nat, l: nat, m: nat, f: File, g: File)
    requires UniqueNumbers(v) && FreshPieces(v, pieces, next) && l < |v.levels| && m < |v.levels|
    requires HeldRecovered(v, pieces, l, f) && HeldRecovered(v, pieces, m, g) && f.number == g.number
    ensures l == m && f == g
  {
    if f !in v.levels[l] && g !in v.levels[m] {
      SamePiece(pieces, f, g);
    }
  }

  lemma RecoverNumbers(v: Version, pieces: seq<File>, v': Version, next: nat)
    requires UniqueNumbers(v) && FreshPieces(v, pieces, next) && Edited(v, RecoverEdit(pieces), v')
    ensures UniqueNumbers(v')
  {
    hide FreshPieces, HeldRecovered, RecoverEdit;
    RecoverLevels(v, pieces, v');
    forall l, m, f, g | 0 <= l < NUM_LEVELS && 0 <= m < NUM_LEVELS && f in v'.levels[l] && g in v'.levels[m]
        && f.number == g.number
      ensures l == m && f == g
    {
      OneNumber(v, pieces, next, l, m, f, g);
    }
  }

  lemma RecoverWellFormed(v: Version, pieces: seq<File>, v': Version, next: nat)
    requires WellFormed(v) && UniqueNumbers(v) && FreshPieces(v, pieces, next)
    requires forall f :: f in pieces ==> ValidFile(f)
    requires Edited(v, RecoverEdit(pieces), v')
    ensures WellFormed(v')
  {
    RecoverLevels(v, pieces, v');
    forall l, g | 0 <= l < NUM_LEVELS && g in v'.levels[l] ensures ValidFile(g) {
      assert g in v.levels[l] || g in pieces;
    }
    forall l | 1 <= l < NUM_LEVELS ensures Disjoint(v'.levels[l]) {
      assert forall g :: g in v'.levels[l] <==> HeldRecovered(v, pieces, l, g);
      MixedDisjoint(v.levels[l], [], [], {}, v'.levels[l]);
    }
    RecoverNumbers(v, pieces, v', next);
    DistinctAfter(v', v'.levels[0]);
  }

  lemma RecoverLayered(v: Version, pieces: seq<File>, v': Version)
    requires Layered(v) && Above(EntriesOf(pieces), Contents(v)) && Edited(v, RecoverEdit(pieces), v')
    ensures Layered(v')
  {
    assert |v.levels| == |v'.levels| == NUM_LEVELS;
    hide Edited, EntriesOf, Contents, RecoverEdit;
    RecoverEntries(v, pieces, v');
    forall l, m | 0 <= l < m < NUM_LEVELS ensures Above(EntriesOf(v'.levels[l]), EntriesOf(v'.levels[m])) {
      assert Above(EntriesOf(v.levels[l]), EntriesOf(v.levels[m]));
      LevelInContents(v, m);
    }
  }

  lemma RecoverLevelZero(v: Version, h: seq<Op>, n: nat, n': nat, pieces: seq<File>, cuts: seq<nat>, v': Version,
                         next: nat)
    requires |v.levels| == NUM_LEVELS && LevelZeroLayered(v.levels[0]) && FreshPieces(v, pieces, next)
    requires n <= n' <= |h| && Pieces(Logged(h, n, n'), pieces, cuts)
    requires Above(EntriesOf(pieces), Contents(v)) && Edited(v, RecoverEdit(pieces), v')
    ensures LevelZeroLayered(v'.levels[0])
  {
    RecoverLevels(v, pieces, v');
    LevelInContents(v, 0);
    forall f, g | f in v'.levels[0] && g in v'.levels[0] && f.number > g.number
      ensures Above(Elems(f.entries), Elems(g.entries))
    {
      if f in pieces && g in pieces {
        PiecesInOrder(h, n, n', pieces, cuts, f, g);
      } else if f in pieces {
        forall e, x | e in Elems(f.entries) && x in Elems(g.entries) && e.key.ukey == x.key.ukey
          ensures e.key.seqno > x.key.seqno
        {
          InFile(pieces, f, e);
          InFile(v.levels[0], g, x);
        }
      }
    }
  }

  /** The pieces hold the rest of the history, all of it newer than what the version holds. */
  lemma PiecesAbove(v: Version, h: seq<Op>, n: nat, n': nat, pieces: seq<File>, cuts: seq<nat>)
    requires n <= n' <= |h| && Pieces(Logged(h, n, n'), pieces, cuts) && Contents(v) <= Writes(h, 0, n)
    ensures EntriesOf(pieces) == Writes(h, n, n') && Above(EntriesOf(pieces), Contents(v))
    ensures UniqueSeq(Contents(v) + Writes(h, n, n')) && forall f :: f in pieces ==> ValidFile(f)
  {
    hide Pieces, EntriesOf, ValidFile, Contents, Logged;
    PieceEntries(Logged(h, n, n'), pieces, cuts);
    PiecesValid(Logged(h, n, n'), pieces, cuts);
    LoggedElems(h, n, n');
    WritesSplit(h, 0, n, n');
    WritesUnique(h, 0, n');
  }

  /** What recovery builds from the descriptor's version and the log can be searched. */
  lemma RecoverSearchable(v: Version, h: seq<Op>, n: nat, n': nat, pieces: seq<File>, cuts: seq<nat>, v': Version,
                          next: nat)
    requires n <= n' <= |h| && Pieces(Logged(h, n, n'), pieces, cuts)
    requires Searchable(v) && UniqueNumbers(v) && Contents(v) <= Writes(h, 0, n) && FreshPieces(v, pieces, next)
    requires Edited(v, RecoverEdit(pieces), v')
    ensures Searchable(v') && UniqueNumbers(v') && Contents(v') == Contents(v) + Writes(h, n, n')
  {
    assert |v.levels| == NUM_LEVELS;
    hide WellFormed, Layered, LevelZeroLayered, UniqueNumbers, Edited, Pieces, EntriesOf, ValidFile, Contents, Writes,
        Logged;
    PiecesAbove(v, h, n, n', pieces, cuts);
    RecoverWellFormed(v, pieces, v', next);
    RecoverLayered(v, pieces, v');
    RecoverLevelZero(v, h, n, n', pieces, cuts, v', next);
    RecoverEntries(v, pieces, v');
    RecoverNumbers(v, pieces, v', next);
  }
}
