// Several LocalRepository.Save calls of one name, step by step.  Each call opens the file for
// itself, which empties it, and then writes at an offset of its own.

module LocalOverlap {
  import opened Domain

  // One Save: in progress or over, and the bytes it has written so far, which are also its offset.
  datatype Save = Save(open: bool, written: Bytes)

  datatype OpenFile = OpenFile(bytes: Bytes, saves: seq<Save>)

  datatype Event = Create | Write(w: nat, chunk: Bytes) | Close(w: nat)

  predicate InProgress(f: OpenFile, w: nat) {
    w < |f.saves| && f.saves[w].open
  }

  /** No Save of this name is in progress. */
  predicate Idle(f: OpenFile) {
    forall w | 0 <= w < |f.saves| :: !f.saves[w].open
  }

  predicate Enabled(f: OpenFile, e: Event) {
    match e
    case Create => true
    case Write(w, _) => InProgress(f, w)
    case Close(w) => InProgress(f, w)
  }

  function Zeros(n: nat): (z: Bytes)
    ensures |z| == n && forall i | 0 <= i < n :: z[i] == 0
  {
    seq(n, _ => 0)
  }

  /** A write at an offset: a gap before it is filled with zeros, what lies behind it stays. */
  function WriteAt(bytes: Bytes, offset: nat, chunk: Bytes): Bytes {
    if chunk == [] then bytes
    else if offset + |chunk| >= |bytes| then
      (if offset <= |bytes| then bytes[..offset] else bytes + Zeros(offset - |bytes|)) + chunk
    else bytes[..offset] + chunk + bytes[offset + |chunk|..]
  }

  function Apply(f: OpenFile, e: Event): OpenFile
    requires Enabled(f, e)
  {
    match e
    case Create => OpenFile([], f.saves + [Save(true, [])])
    case Write(w, chunk) =>
      var s := f.saves[w];
      OpenFile(WriteAt(f.bytes, |s.written|, chunk), f.saves[w := s.(written := s.written + chunk)])
    case Close(w) => f.(saves := f.saves[w := f.saves[w].(open := false)])
  }

  ghost function Run(f: OpenFile, es: seq<Event>): Option<OpenFile>
    decreases |es|
  {
    if es == [] then Some(f) else
    var k := |es| - 1;
    match Run(f, es[..k])
    case None => None
    case Some(g) => if Enabled(g, es[k]) then Some(Apply(g, es[k])) else None
  }

  /** A write byte by byte: the chunk at its offset, what was there outside it, zeros in a gap. */
  lemma WriteAtIs(bytes: Bytes, offset: nat, chunk: Bytes)
    ensures var r := WriteAt(bytes, offset, chunk);
            && (chunk == [] ==> r == bytes)
            && (chunk != [] ==>
                  && |r| == (if offset + |chunk| > |bytes| then offset + |chunk| else |bytes|)
                  && forall i | 0 <= i < |r| ::
                       r[i] == if offset <= i < offset + |chunk| then chunk[i - offset]
                               else if i < |bytes| then bytes[i]
                               else 0)
  {
    if chunk != [] && offset > |bytes| {
      assert |Zeros(offset - |bytes|)| == offset - |bytes|;
    }
  }

  /** What Save w has been given to write, in order. */
  function ChunksOf(es: seq<Event>, w: nat): Bytes {
    if es == [] then []
    else
      var e := es[|es| - 1];
      ChunksOf(es[..|es| - 1], w) + if e.Write? && e.w == w then e.chunk else []
  }

  /** Each Save has written what it was given, and is in progress until it is closed. */
  lemma {:induction false} WrittenIs(before: Bytes, es: seq<Event>, w: nat)
    requires Run(OpenFile(before, []), es).Some?
    ensures var f := Run(OpenFile(before, []), es).value;
            && (w < |f.saves| ==>
                  f.saves[w].written == ChunksOf(es, w) && (f.saves[w].open <==> Close(w) !in es))
            && (w >= |f.saves| ==> ChunksOf(es, w) == [] && Close(w) !in es)
    decreases |es|
  {
    if es != [] {
      var n := |es| - 1;
      WrittenIs(before, es[..n], w);
      assert es == es[..n] + [es[n]];
    }
  }

  /** Every Save of the run began when no other was in progress. */
  ghost predicate Exclusive(f: OpenFile, es: seq<Event>)
    requires Run(f, es).Some?
    decreases |es|
  {
    es != [] ==>
      var k := |es| - 1;
      Exclusive(f, es[..k]) && (es[k].Create? ==> Idle(Run(f, es[..k]).value))
  }

  /** Only the Save that began last can be in progress, and the file is what it has written. */
  ghost predicate Tidy(f: OpenFile) {
    && (forall w | 0 <= w < |f.saves| && f.saves[w].open :: w == |f.saves| - 1)
    && (f.saves != [] ==> f.bytes == f.saves[|f.saves| - 1].written)
  }

  lemma StepKeepsTidy(f: OpenFile, e: Event)
    requires Tidy(f) && Enabled(f, e) && (e.Create? ==> Idle(f))
    ensures Tidy(Apply(f, e))
  {
    if e.Write? {
      assert f.bytes[..|f.bytes|] == f.bytes;
      assert e.chunk == [] ==> f.bytes + e.chunk == f.bytes;
    }
  }

  /** When Saves of a name do not overlap, the file is at every step what the last of them has
      written, and at its end all of it. */
  lemma {:induction false} ExclusiveSavesAreWhole(before: Bytes, es: seq<Event>)
    requires Run(OpenFile(before, []), es).Some? && Exclusive(OpenFile(before, []), es)
    ensures Tidy(Run(OpenFile(before, []), es).value)
    decreases |es|
  {
    if es != [] {
      ExclusiveSavesAreWhole(before, es[..|es| - 1]);
      StepKeepsTidy(Run(OpenFile(before, []), es[..|es| - 1]).value, es[|es| - 1]);
    }
  }

  predicate NoCreate(es: seq<Event>) {
    forall k | 0 <= k < |es| :: !es[k].Create?
  }

  /** Whatever the Saves in progress still write, once they are over the file is all that one of
      them has written. */
  ghost predicate EndsWhole(f: OpenFile) {
    forall es | NoCreate(es) && Run(f, es).Some? && Idle(Run(f, es).value) ::
      var g := Run(f, es).value;
      exists w | 0 <= w < |g.saves| :: InProgress(f, w) && g.bytes == g.saves[w].written
  }

  lemma {:induction false} NoCreateKeepsTidy(f: OpenFile, es: seq<Event>)
    requires Tidy(f) && NoCreate(es) && Run(f, es).Some?
    ensures Tidy(Run(f, es).value) && |Run(f, es).value.saves| == |f.saves|
    decreases |es|
  {
    if es != [] {
      var init := es[..|es| - 1];
      assert forall k | 0 <= k < |init| :: init[k] == es[k];
      NoCreateKeepsTidy(f, init);
      StepKeepsTidy(Run(f, init).value, es[|es| - 1]);
    }
  }

  /** Some run from f, without a new Save if quiet, leads to g. */
  ghost predicate Leads(f: OpenFile, g: OpenFile, quiet: bool) {
    exists es :: Run(f, es) == Some(g) && (quiet ==> NoCreate(es))
  }

  lemma Snoc(f: OpenFile, es: seq<Event>, g: OpenFile, e: Event)
    requires Run(f, es) == Some(g) && Enabled(g, e)
    ensures Run(f, es + [e]) == Some(Apply(g, e))
    ensures NoCreate(es) && !e.Create? ==> NoCreate(es + [e])
  {
    var all := es + [e];
    assert all[..|all| - 1] == es && all[|all| - 1] == e;
    forall k | 0 <= k < |all| && NoCreate(es) && !e.Create?
      ensures !all[k].Create?
    {
      assert k < |es| ==> all[k] == es[k];
    }
  }

  lemma Step(f: OpenFile, g: OpenFile, quiet: bool, e: Event) returns (h: OpenFile)
    requires Leads(f, g, quiet) && Enabled(g, e) && (quiet ==> !e.Create?)
    ensures h == Apply(g, e) && Leads(f, h, quiet)
  {
    var es :| Run(f, es) == Some(g) && (quiet ==> NoCreate(es));
    h := Apply(g, e);
    Snoc(f, es, g, e);
  }

  lemma StepNone(f: OpenFile, quiet: bool)
    ensures Leads(f, f, quiet)
  {
    assert Run(f, []) == Some(f);
  }

  function Ones(n: nat): (o: Bytes)
    ensures |o| == n && forall i | 0 <= i < n :: o[i] == 1
  {
    seq(n, _ => 1)
  }

  /** No Save has written more than this. */
  function Longest(saves: seq<Save>): (n: nat)
    ensures forall w | 0 <= w < |saves| :: |saves[w].written| <= n
  {
    if saves == [] then 0
    else
      var m := Longest(saves[..|saves| - 1]);
      var last := |saves[|saves| - 1].written|;
      assert forall w | 0 <= w < |saves| - 1 :: saves[w] == saves[..|saves| - 1][w];
      if m < last then last else m
  }

  /** The Saves before n are closed, one after another; nothing else changes. */
  lemma {:induction false} CloseUpTo(f: OpenFile, g: OpenFile, n: nat) returns (h: OpenFile)
    requires Leads(f, g, true) && n <= |g.saves|
    ensures Leads(f, h, true) && h.bytes == g.bytes && |h.saves| == |g.saves|
    ensures forall w | 0 <= w < |g.saves| :: h.saves[w] == if w < n then g.saves[w].(open := false) else g.saves[w]
  {
    h := g;
    if n > 0 {
      h := CloseUpTo(f, g, n - 1);
      if h.saves[n - 1].open {
        h := Step(f, h, true, Close(n - 1));
      }
    }
  }

  /** The newest Save and some other one, v, are in progress: a run that spoils the file for all. */
  lemma Spoiled(f: OpenFile, v: nat) returns (h: OpenFile)
    requires v < |f.saves| - 1 && f.bytes == [] && f.saves[|f.saves| - 1] == Save(true, []) && f.saves[v].open
    ensures Leads(f, h, true) && Idle(h) && |h.saves| == |f.saves|
    ensures forall w | 0 <= w < |h.saves| :: h.bytes != h.saves[w].written
  {
    var w, n, k := |f.saves| - 1, Longest(f.saves) + 2, |f.saves[v].written|;
    StepNone(f, true);
    var g := Step(f, f, true, Write(w, Ones(n)));
    assert g.bytes == Ones(n) && g.saves[w].written == Ones(n);
    g := Step(f, g, true, Write(v, [2]));
    assert |g.bytes| == n && g.bytes[k] == 2 && Ones(n)[k] == 1;
    h := CloseUpTo(f, g, |g.saves|);
    forall u | 0 <= u < |h.saves|
      ensures h.bytes != h.saves[u].written
    {
      assert h.saves[u].written == g.saves[u].written;
      assert u != w ==> |g.saves[u].written| <= n - 1;
    }
  }

  /** Whatever has happened to the file before, a Save that begins is sure to leave the whole of
      what some Save wrote exactly when no other Save of the name is in progress. */
  lemma WholeExactlyWhenIdle(f: OpenFile)
    ensures EndsWhole(Apply(f, Create)) <==> Idle(f)
  {
    var g := Apply(f, Create);
    if Idle(f) {
      forall rest | NoCreate(rest) && Run(g, rest).Some? && Idle(Run(g, rest).value)
        ensures var h := Run(g, rest).value;
                exists w | 0 <= w < |h.saves| :: InProgress(g, w) && h.bytes == h.saves[w].written
      {
        NoCreateKeepsTidy(g, rest);
        assert InProgress(g, |g.saves| - 1);
      }
    } else {
      var v :| 0 <= v < |f.saves| && f.saves[v].open;
      var h := Spoiled(g, v);
      var rest :| Run(g, rest) == Some(h) && NoCreate(rest);
      assert !EndsWhole(g);
    }
  }

  lemma WriteFirst(bytes: Bytes, chunk: Bytes)
    requires chunk != []
    ensures [] + chunk == chunk
    ensures WriteAt(bytes, 0, chunk) == chunk + (if |chunk| < |bytes| then bytes[|chunk|..] else [])
  {
    assert bytes[..0] == [];
  }

  /** Two overlapping Saves of one name that both open the file and then write, the longer one
      first: it ends as the shorter payload and the rest of the longer one ("bbaa" for "aaaa" and
      "bb"), which neither order of the two Saves leaves. */
  lemma MixedFile(a: Bytes, b: Bytes) returns (f: OpenFile)
    requires 0 < |b| < |a|
    ensures Leads(OpenFile([], []), f, false) && Idle(f)
    ensures f.saves == [Save(false, a), Save(false, b)]
    ensures f.bytes == b + a[|b|..]
    ensures !(b <= a) ==> f.bytes != a && f.bytes != b
  {
    var f0 := OpenFile([], []);
    StepNone(f0, false);
    f := Step(f0, f0, false, Create);
    f := Step(f0, f, false, Create);
    assert f == OpenFile([], [Save(true, []), Save(true, [])]);
    WriteFirst([], a);
    f := Step(f0, f, false, Write(0, a));
    assert f == OpenFile(a, [Save(true, a), Save(true, [])]);
    WriteFirst(a, b);
    f := Step(f0, f, false, Write(1, b));
    assert f == OpenFile(b + a[|b|..], [Save(true, a), Save(true, b)]);
    f := Step(f0, f, false, Close(0));
    f := Step(f0, f, false, Close(1));
    assert f.bytes[..|b|] == b;
  }
}
