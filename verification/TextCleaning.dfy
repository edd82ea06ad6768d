// Chunker.split up to the call of the library splitter: one leftmost greedy regex rewrite and
// one strip per document, in place.  The characters that \s matches and strip removes are the
// parameter ws, which always contains the newline.

module TextCleaning {
  import opened Domain

  const NL: char := '\n'

  // ------------------------------------------------------------ the regex, with backtracking

  datatype Item = Lit(c: char) | Many(cs: set<char>)

  // A regex that is a sequence of literals and stars.
  datatype Regex = Done | Then(item: Item, rest: Regex)

  function Longer(n: Option<nat>): Option<nat> {
    match n case None => None case Some(k) => Some(k + 1)
  }

  /** The length a backtracking matcher matches at the start of t.  A greedy star first tries to
      take one more character, and gives it back only if everything after that fails. */
  function Match(r: Regex, t: string): (n: Option<nat>)
    ensures n.Some? ==> n.value <= |t|
    decreases |t|, r
  {
    match r
    case Done => Some(0)
    case Then(Lit(c), rest) =>
      if t == [] || t[0] != c then None else Longer(Match(rest, t[1..]))
    case Then(Many(cs), rest) =>
      if t == [] || t[0] !in cs then Match(rest, t)
      else
        var more := Match(r, t[1..]);
        if more.Some? then Longer(more) else Match(rest, t)
  }

  /** The pattern \n\s*\n of the source. */
  function Pattern(ws: set<char>): Regex {
    Then(Lit(NL), Then(Many(ws), Then(Lit(NL), Done)))
  }

  /** t starts with a newline, blanks and a newline, n characters in all. */
  predicate Span(t: string, n: nat, ws: set<char>) {
    2 <= n <= |t| && t[0] == NL && t[n - 1] == NL && forall k | 1 <= k < n - 1 :: t[k] in ws
  }

  /** t starts with blanks and a newline, n characters in all. */
  predicate Tail(t: string, n: nat, ws: set<char>) {
    1 <= n <= |t| && t[n - 1] == NL && forall k | 0 <= k < n - 1 :: t[k] in ws
  }

  lemma TailShifts(t: string, n: nat, ws: set<char>)
    requires t != [] && t[0] in ws
    ensures Tail(t, n + 1, ws) <==> (Tail(t[1..], n, ws) || (n == 0 && t[0] == NL))
  {
    var s := t[1..];
    assert forall k | 0 <= k < |s| :: s[k] == t[k + 1];
    if Tail(s, n, ws) {
      forall k | 0 <= k < n
        ensures t[k] in ws
      {
        assert k == 0 || t[k] == s[k - 1];
      }
    }
  }

  /** r is the largest n that satisfies Tail, or None if no n does. */
  ghost predicate LongestTail(t: string, r: Option<nat>, ws: set<char>) {
    match r
    case None => forall n: nat :: !Tail(t, n, ws)
    case Some(m) => Tail(t, m, ws) && forall n: nat | Tail(t, n, ws) :: n <= m
  }

  /** Giving characters back one at a time, the star ends before the last newline it can. */
  lemma {:induction false} StarFindsLongest(t: string, ws: set<char>)
    requires NL in ws
    ensures LongestTail(t, Match(Then(Many(ws), Then(Lit(NL), Done)), t), ws)
    decreases |t|
  {
    var newline := Then(Lit(NL), Done);
    var r := Match(Then(Many(ws), newline), t);
    if t != [] && t[0] in ws {
      StarFindsLongest(t[1..], ws);
      assert Match(newline, t) == if t[0] == NL then Some(1) else None;
      forall n: nat | Tail(t, n, ws)
        ensures r.Some? && n <= r.value
      {
        TailShifts(t, n - 1, ws);
      }
      if r.Some? {
        TailShifts(t, r.value - 1, ws);
      }
    } else {
      assert r == Match(newline, t) == None;
    }
  }

  lemma SpanIsTail(t: string, n: nat, ws: set<char>)
    requires t != [] && t[0] == NL
    ensures Span(t, n + 1, ws) <==> Tail(t[1..], n, ws)
  {
    var s := t[1..];
    assert forall k | 0 <= k < |s| :: s[k] == t[k + 1];
    if Tail(s, n, ws) {
      forall k | 1 <= k < n
        ensures t[k] in ws
      {
        assert t[k] == s[k - 1];
      }
    }
  }

  /** r is the length of the longest match of the pattern at the start of t, or None. */
  ghost predicate LongestSpan(t: string, r: Option<nat>, ws: set<char>) {
    match r
    case None => forall n: nat :: !Span(t, n, ws)
    case Some(m) => Span(t, m, ws) && forall n: nat | Span(t, n, ws) :: n <= m
  }

  /** The match the regex engine settles on at the start of t is the longest there is. */
  lemma GreedyFindsLongest(t: string, ws: set<char>)
    requires NL in ws
    ensures LongestSpan(t, Match(Pattern(ws), t), ws)
  {
    var r := Match(Pattern(ws), t);
    if t != [] && t[0] == NL {
      StarFindsLongest(t[1..], ws);
      forall n: nat | Span(t, n, ws)
        ensures r.Some? && n <= r.value
      {
        SpanIsTail(t, n - 1, ws);
      }
      if r.Some? {
        SpanIsTail(t, r.value - 1, ws);
      }
    }
  }

  // --------------------------------------------------- what the rewrite does to each blank run

  /** The length of the run of blanks that t starts with. */
  function RunLen(t: string, ws: set<char>): (n: nat)
    ensures n <= |t| && (forall k | 0 <= k < n :: t[k] in ws) && (n < |t| ==> t[n] !in ws)
  {
    if t != [] && t[0] in ws then
      var m := RunLen(t[1..], ws);
      assert forall k | 1 <= k < m + 1 :: t[k] == t[1..][k - 1];
      1 + m
    else 0
  }

  /** The position of the first newline, or the length if there is none. */
  function FirstNl(r: string): (k: nat)
    ensures k <= |r| && (forall j | 0 <= j < k :: r[j] != NL) && (k < |r| ==> r[k] == NL)
  {
    if r == [] || r[0] == NL then 0
    else
      assert forall j | 1 <= j < |r| :: r[j] == r[1..][j - 1];
      1 + FirstNl(r[1..])
  }

  /** The position just after the last newline, or 0 if there is none. */
  function AfterLastNl(r: string): (k: nat)
    ensures k <= |r| && (forall j | k <= j < |r| :: r[j] != NL) && (k > 0 ==> r[k - 1] == NL)
  {
    if r == [] then 0
    else if r[|r| - 1] == NL then |r|
    else AfterLastNl(r[..|r| - 1])
  }

  /** One newline in place of what lies between a and b. */
  function Cut(r: string, a: nat, b: nat): string
    requires a <= |r| && b <= |r|
  {
    r[..a] + [NL] + r[b..]
  }

  /** A blank run keeps what precedes its first newline and what follows its last one. */
  function Squeeze(r: string): string {
    if NL in r then Cut(r, FirstNl(r), AfterLastNl(r)) else r
  }

  /** The whole rewrite: every maximal run of blanks is squeezed, everything else is kept. */
  function Collapse(t: string, ws: set<char>): string {
    if t == [] then []
    else if t[0] in ws then Squeeze(t[..RunLen(t, ws)]) + Collapse(t[RunLen(t, ws)..], ws)
    else [t[0]] + Collapse(t[1..], ws)
  }

  lemma SliceOfSuffix(t: string, k: nat, n: nat)
    requires k < n <= |t|
    ensures t[k..][..n - k] == t[k..n] && t[k..][n - k..] == t[n..] && t[k..][0] == t[k]
  {
  }

  lemma SameRun(t: string, k: nat, ws: set<char>)
    requires k <= RunLen(t, ws)
    ensures RunLen(t[k..], ws) == RunLen(t, ws) - k
  {
    var n := RunLen(t, ws);
    var m := RunLen(t[k..], ws);
    assert k + m < |t| ==> t[k..][m] == t[k + m];
    assert n < |t| ==> t[k..][n - k] == t[n];
  }

  lemma CollapseInsideRun(t: string, k: nat, ws: set<char>)
    requires k <= RunLen(t, ws)
    ensures var n := RunLen(t, ws);
            Collapse(t[k..], ws) == Squeeze(t[k..n]) + Collapse(t[n..], ws)
  {
    var n := RunLen(t, ws);
    if k == n {
      assert t[k..n] == [] && Squeeze([]) == [];
    } else {
      SameRun(t, k, ws);
      SliceOfSuffix(t, k, n);
    }
  }

  lemma FirstNlIs(r: string, k: nat)
    requires k <= |r| && (forall j | 0 <= j < k :: r[j] != NL) && (k < |r| ==> r[k] == NL)
    ensures FirstNl(r) == k
  {
  }

  lemma AfterLastNlIs(r: string, k: nat)
    requires k <= |r| && (forall j | k <= j < |r| :: r[j] != NL) && (k > 0 ==> r[k - 1] == NL)
    ensures AfterLastNl(r) == k
  {
    var a := AfterLastNl(r);
    assert a > 0 ==> r[a - 1] == NL;
  }

  /** The run r has its first newline at a and its last one just before b. */
  predicate NlBounds(r: string, a: nat, b: nat) {
    && a < b <= |r| && r[a] == NL && r[b - 1] == NL
    && (forall j | 0 <= j < a :: r[j] != NL) && (forall j | b <= j < |r| :: r[j] != NL)
  }

  lemma SqueezeIs(r: string, a: nat, b: nat)
    requires NlBounds(r, a, b)
    ensures Squeeze(r) == Cut(r, a, b)
  {
    FirstNlIs(r, a);
    AfterLastNlIs(r, b);
    assert r[a] in r;
  }

  lemma CutFirst(r: string, k: nat)
    requires k <= |r|
    ensures Cut(r, 0, k) == [NL] + r[k..]
  {
    assert r[..0] == [];
  }

  lemma NewlineSqueezed(r: string, k: nat)
    requires 0 < k <= |r| && r[0] == NL && r[k - 1] == NL && forall j | k <= j < |r| :: r[j] != NL
    ensures Squeeze(r) == [NL] + r[k..]
  {
    SqueezeIs(r, 0, k);
    CutFirst(r, k);
  }

  lemma NoNewlineSqueezed(r: string)
    requires forall j | 0 <= j < |r| :: r[j] != NL
    ensures Squeeze(r) == r
  {
  }

  lemma Assoc<T>(a: seq<T>, b: seq<T>, c: seq<T>)
    ensures (a + b) + c == a + (b + c)
  {
  }

  lemma CutShifted(c: char, q: string, a: nat, b: nat)
    requires a <= |q| && b <= |q|
    ensures Cut([c] + q, a + 1, b + 1) == [c] + Cut(q, a, b)
  {
    var r := [c] + q;
    assert r[..a + 1] == [c] + q[..a];
    assert r[b + 1..] == q[b..];
    Assoc([c], q[..a], [NL]);
    Assoc([c], q[..a] + [NL], q[b..]);
  }

  lemma HasNlShifts(c: char, q: string)
    requires c != NL
    ensures NL in [c] + q <==> NL in q
  {
  }

  lemma BoundsShift(c: char, q: string, r: string, a: nat, b: nat)
    requires c != NL && NlBounds(q, a, b) && r == [c] + q
    ensures NlBounds(r, a + 1, b + 1)
  {
    forall j | 0 <= j < a + 1
      ensures r[j] != NL
    {
      assert j == 0 || r[j] == q[j - 1];
    }
    forall j | b + 1 <= j < |r|
      ensures r[j] != NL
    {
      assert r[j] == q[j - 1];
    }
    assert r[a + 1] == q[a] && r[b] == q[b - 1];
  }

  /** A blank that goes before a run with newlines is kept before the squeezed run. */
  lemma BlankBeforeCut(c: char, q: string, r: string, a: nat, b: nat)
    requires c != NL && NlBounds(q, a, b) && r == [c] + q
    ensures Squeeze(r) == [c] + Cut(q, a, b)
  {
    BoundsShift(c, q, r, a, b);
    SqueezeIs(r, a + 1, b + 1);
    CutShifted(c, q, a, b);
  }

  lemma Bounds(q: string) returns (a: nat, b: nat)
    requires NL in q
    ensures NlBounds(q, a, b) && Squeeze(q) == Cut(q, a, b)
  {
    var i :| 0 <= i < |q| && q[i] == NL;
    a, b := FirstNl(q), AfterLastNl(q);
    assert a <= i < b;
    SqueezeIs(q, a, b);
  }

  lemma BlankSqueezed(c: char, q: string, r: string)
    requires c != NL && r == [c] + q
    ensures Squeeze(r) == [c] + Squeeze(q)
  {
    if NL in q {
      var a, b := Bounds(q);
      BlankBeforeCut(c, q, r, a, b);
    } else {
      HasNlShifts(c, q);
    }
  }

  lemma CopyInRun(t: string, ws: set<char>)
    requires NL in ws && t != [] && t[0] in ws && forall n :: !Span(t, n, ws)
    ensures var n := RunLen(t, ws); Squeeze(t[..n]) == [t[0]] + Squeeze(t[1..n])
  {
    var n := RunLen(t, ws);
    var q := t[1..n];
    assert t[..n] == [t[0]] + q;
    if t[0] == NL {
      forall j | 0 <= j < |q|
        ensures q[j] != NL
      {
        assert !Span(t, j + 2, ws);
      }
      NoNewlineSqueezed(q);
      NewlineSqueezed(t[..n], 1);
      assert t[..n][1..] == q;
    } else {
      BlankSqueezed(t[0], q, t[..n]);
    }
  }

  /** Where the pattern does not match, the scan copies one character. */
  lemma CopyStep(t: string, ws: set<char>)
    requires NL in ws && t != [] && forall n :: !Span(t, n, ws)
    ensures Collapse(t, ws) == [t[0]] + Collapse(t[1..], ws)
  {
    if t[0] in ws {
      var n := RunLen(t, ws);
      CopyInRun(t, ws);
      CollapseInsideRun(t, 1, ws);
      assert Collapse(t, ws) == Squeeze(t[..n]) + Collapse(t[n..], ws);
      Assoc([t[0]], Squeeze(t[1..n]), Collapse(t[n..], ws));
    }
  }

  lemma MatchInRun(t: string, e: nat, ws: set<char>)
    requires NL in ws && Span(t, e, ws) && forall n: nat | Span(t, n, ws) :: n <= e
    ensures var n := RunLen(t, ws);
            e <= n && Squeeze(t[..n]) == [NL] + t[e..n] && Squeeze(t[e..n]) == t[e..n]
  {
    var n := RunLen(t, ws);
    var r := t[..n];
    assert e <= n;
    forall j | e <= j < n
      ensures r[j] != NL
    {
      assert !Span(t, j + 1, ws);
    }
    NewlineSqueezed(r, e);
    assert r[e..] == t[e..n];
    NoNewlineSqueezed(r[e..]);
  }

  /** Where the pattern matches, the scan writes one newline and skips the longest match. */
  lemma MatchStep(t: string, e: nat, ws: set<char>)
    requires NL in ws && Span(t, e, ws) && forall n: nat | Span(t, n, ws) :: n <= e
    ensures Collapse(t, ws) == [NL] + Collapse(t[e..], ws)
  {
    MatchInRun(t, e, ws);
    CollapseInsideRun(t, e, ws);
    Assoc([NL], t[e..RunLen(t, ws)], Collapse(t[RunLen(t, ws)..], ws));
  }

  /** One try of the regex at the start of t. */
  method MatchHere(t: string, ws: set<char>) returns (m: Option<nat>)
    requires NL in ws
    ensures LongestSpan(t, m, ws)
  {
    GreedyFindsLongest(t, ws);
    m := Match(Pattern(ws), t);
  }

  /** One round of the scan: what is still to be written loses the piece written now. */
  lemma ScanStep(t: string, pos: nat, m: Option<nat>, ws: set<char>)
    requires NL in ws && pos < |t| && LongestSpan(t[pos..], m, ws)
    ensures m.None? ==> Collapse(t[pos..], ws) == [t[pos]] + Collapse(t[pos + 1..], ws)
    ensures m.Some? ==>
              0 < m.value <= |t| - pos && Collapse(t[pos..], ws) == [NL] + Collapse(t[pos + m.value..], ws)
  {
    var rest := t[pos..];
    if m.None? {
      CopyStep(rest, ws);
      assert rest[1..] == t[pos + 1..];
    } else {
      MatchStep(rest, m.value, ws);
      assert rest[m.value..] == t[pos + m.value..];
    }
  }

  /** re.sub with Pattern and a newline: scan from the left, replacing each match found. */
  method Sub(t: string, ws: set<char>) returns (out: string)
    requires NL in ws
    ensures out == Collapse(t, ws)
  {
    out := [];
    var pos := 0;
    ghost var goal := Collapse(t, ws);
    ghost var todo := goal;
    assert t[0..] == t;
    while pos < |t|
      invariant pos <= |t| && todo == Collapse(t[pos..], ws)
      invariant out + todo == goal
    {
      var m := MatchHere(t[pos..], ws);
      ScanStep(t, pos, m, ws);
      var piece := if m.None? then t[pos] else NL;
      pos := if m.None? then pos + 1 else pos + m.value;
      todo := Collapse(t[pos..], ws);
      Assoc(out, [piece], todo);
      out := out + [piece];
    }
    assert t[pos..] == [];
  }

  // ------------------------------------------------------------------------ strip and split

  function LStrip(t: string, ws: set<char>): string {
    if t != [] && t[0] in ws then LStrip(t[1..], ws) else t
  }

  function RStrip(t: string, ws: set<char>): string {
    if t != [] && t[|t| - 1] in ws then RStrip(t[..|t| - 1], ws) else t
  }

  function Strip(t: string, ws: set<char>): string {
    RStrip(LStrip(t, ws), ws)
  }

  function Clean(t: string, ws: set<char>): string {
    Strip(Collapse(t, ws), ws)
  }

  // ------------------------------------------------------------------- cleaning is final

  /** Something other than a blank stands between i and j. */
  predicate Parted(t: string, i: int, j: int, ws: set<char>)
    requires 0 <= i <= j <= |t|
  {
    exists k :: i < k < j && t[k] !in ws
  }

  /** Any two newlines have something other than a blank between them. */
  ghost predicate NoDouble(t: string, ws: set<char>) {
    forall i, j | 0 <= i < j < |t| && t[i] == NL && t[j] == NL :: Parted(t, i, j, ws)
  }

  lemma NoDoubleNoSpan(t: string, i: nat, n: nat, ws: set<char>)
    requires NoDouble(t, ws) && i <= |t|
    ensures !Span(t[i..], n, ws)
  {
    var s := t[i..];
    if 2 <= n <= |s| && s[0] == NL && s[n - 1] == NL {
      assert t[i] == NL && t[i + n - 1] == NL;
      var k :| i < k < i + n - 1 && t[k] !in ws;
      assert s[k - i] !in ws;
    }
  }

  /** NoDouble says exactly that the pattern matches nowhere. */
  lemma NoDoubleIsNoMatch(t: string, ws: set<char>)
    requires NL in ws
    ensures NoDouble(t, ws) <==> forall i | 0 <= i <= |t| :: Match(Pattern(ws), t[i..]) == None
  {
    if NoDouble(t, ws) {
      forall i | 0 <= i <= |t|
        ensures Match(Pattern(ws), t[i..]) == None
      {
        GreedyFindsLongest(t[i..], ws);
        forall n: nat
          ensures !Span(t[i..], n, ws)
        {
          NoDoubleNoSpan(t, i, n, ws);
        }
      }
    } else {
      var i, j :| 0 <= i < j < |t| && t[i] == NL && t[j] == NL && forall k | i < k < j :: t[k] in ws;
      GreedyFindsLongest(t[i..], ws);
      assert Span(t[i..], j - i + 1, ws);
    }
  }

  /** Where a squeezed run got its characters from. */
  lemma CutAt(r: string, a: nat, b: nat, k: nat)
    requires a < b <= |r| && k < |Cut(r, a, b)|
    ensures Cut(r, a, b)[k] == if k < a then r[k] else if k == a then NL else r[b + (k - a - 1)]
    ensures k > a ==> b <= b + (k - a - 1) < |r|
  {
  }

  lemma CutShape(r: string, a: nat, b: nat, ws: set<char>)
    requires NL in ws && (forall k | 0 <= k < |r| :: r[k] in ws) && NlBounds(r, a, b)
    ensures var s := Cut(r, a, b);
            a < |s| && forall k | 0 <= k < |s| :: s[k] in ws && (s[k] == NL <==> k == a)
  {
    forall k | 0 <= k < |Cut(r, a, b)|
      ensures Cut(r, a, b)[k] in ws && (Cut(r, a, b)[k] == NL <==> k == a)
    {
      CutAt(r, a, b, k);
    }
  }

  lemma SqueezeShape(r: string, ws: set<char>)
    requires NL in ws && forall k | 0 <= k < |r| :: r[k] in ws
    ensures forall k | 0 <= k < |Squeeze(r)| :: Squeeze(r)[k] in ws
    ensures forall i, j | 0 <= i < j < |Squeeze(r)| && Squeeze(r)[i] == NL :: Squeeze(r)[j] != NL
    ensures NL in Squeeze(r) <==> NL in r
    ensures Squeeze(r) == [] <==> r == []
  {
    if NL in r {
      var a, b := Bounds(r);
      CutShape(r, a, b, ws);
      assert Squeeze(r)[a] == NL;
    }
  }

  lemma JoinNoDouble(a: string, b: string, ws: set<char>)
    requires NL in ws && NoDouble(b, ws) && (b != [] ==> b[0] !in ws)
    requires forall i, j | 0 <= i < j < |a| && a[i] == NL :: a[j] != NL
    ensures NoDouble(a + b, ws)
  {
    var t := a + b;
    forall i, j | 0 <= i < j < |t| && t[i] == NL && t[j] == NL
      ensures Parted(t, i, j, ws)
    {
      if i >= |a| {
        var k :| i - |a| < k < j - |a| && b[k] !in ws;
        assert t[|a| + k] !in ws;
      } else {
        assert j >= |a|;
        assert t[|a|] == b[0];
      }
    }
  }

  lemma PartedShifts(c: char, b: string, u: string, i: nat, j: nat, ws: set<char>)
    requires i < j < |b| && b[i] == NL && b[j] == NL && NoDouble(b, ws) && u == [c] + b
    ensures Parted(u, i + 1, j + 1, ws)
  {
    assert Parted(b, i, j, ws);
    var k :| i < k < j && b[k] !in ws;
    assert u[k + 1] == b[k];
  }

  lemma ConsNoDouble(c: char, b: string, ws: set<char>)
    requires NL in ws && NoDouble(b, ws) && c !in ws
    ensures NoDouble([c] + b, ws)
  {
    var u := [c] + b;
    forall i, j | 0 <= i < j < |u| && u[i] == NL && u[j] == NL
      ensures Parted(u, i, j, ws)
    {
      PartedShifts(c, b, u, i - 1, j - 1, ws);
    }
  }

  lemma {:induction false} CollapseShape(t: string, ws: set<char>)
    requires NL in ws
    ensures NoDouble(Collapse(t, ws), ws)
    ensures Collapse(t, ws) == [] <==> t == []
    ensures t != [] ==> (Collapse(t, ws)[0] in ws <==> t[0] in ws)
    decreases |t|
  {
    if t != [] {
      if t[0] in ws {
        var n := RunLen(t, ws);
        assert n > 0;
        CollapseShape(t[n..], ws);
        SqueezeShape(t[..n], ws);
        assert n < |t| ==> t[n..][0] == t[n];
        JoinNoDouble(Squeeze(t[..n]), Collapse(t[n..], ws), ws);
      } else {
        CollapseShape(t[1..], ws);
        ConsNoDouble(t[0], Collapse(t[1..], ws), ws);
      }
    }
  }

  lemma PartNoDouble(t: string, lo: nat, hi: nat, ws: set<char>)
    requires lo <= hi <= |t| && NoDouble(t, ws)
    ensures NoDouble(t[lo..hi], ws)
  {
    var p := t[lo..hi];
    forall i, j | 0 <= i < j < |p| && p[i] == NL && p[j] == NL
      ensures Parted(p, i, j, ws)
    {
      assert t[lo + i] == NL && t[lo + j] == NL;
      var k :| lo + i < k < lo + j && t[k] !in ws;
      assert p[k - lo] !in ws;
    }
  }

  lemma NoSpanHere(t: string, ws: set<char>)
    requires NoDouble(t, ws)
    ensures forall n :: !Span(t, n, ws)
  {
    forall n: nat
      ensures !Span(t, n, ws)
    {
      NoDoubleNoSpan(t, 0, n, ws);
      assert t[0..] == t;
    }
  }

  lemma RestNoDouble(t: string, ws: set<char>)
    requires t != [] && NoDouble(t, ws)
    ensures NoDouble(t[1..], ws) && [t[0]] + t[1..] == t
  {
    PartNoDouble(t, 1, |t|, ws);
    assert t[1..|t|] == t[1..];
  }

  lemma {:induction false} CollapseFixed(t: string, ws: set<char>)
    requires NL in ws && NoDouble(t, ws)
    ensures Collapse(t, ws) == t
  {
    if t != [] {
      NoSpanHere(t, ws);
      CopyStep(t, ws);
      RestNoDouble(t, ws);
      CollapseFixed(t[1..], ws);
    }
  }

  lemma {:induction false} LStripIsPart(t: string, ws: set<char>) returns (lo: nat)
    ensures lo <= |t| && LStrip(t, ws) == t[lo..] && (forall k | 0 <= k < lo :: t[k] in ws)
    ensures lo < |t| ==> t[lo] !in ws
  {
    if t != [] && t[0] in ws {
      lo := LStripIsPart(t[1..], ws);
      assert t[1..][lo..] == t[lo + 1..];
      forall k | 0 <= k < lo + 1
        ensures t[k] in ws
      {
        assert k == 0 || t[k] == t[1..][k - 1];
      }
      lo := lo + 1;
    } else {
      lo := 0;
    }
  }

  lemma {:induction false} RStripIsPart(t: string, ws: set<char>) returns (hi: nat)
    ensures hi <= |t| && RStrip(t, ws) == t[..hi] && (forall k | hi <= k < |t| :: t[k] in ws)
    ensures hi > 0 ==> t[hi - 1] !in ws
  {
    if t != [] && t[|t| - 1] in ws {
      var n := |t| - 1;
      hi := RStripIsPart(t[..n], ws);
      assert t[..n][..hi] == t[..hi];
      forall k | hi <= k < |t|
        ensures t[k] in ws
      {
        assert k == n || t[k] == t[..n][k];
      }
    } else {
      hi := |t|;
      assert t[..hi] == t;
    }
  }

  lemma StripIsPart(t: string, ws: set<char>) returns (lo: nat, hi: nat)
    ensures lo <= hi <= |t| && Strip(t, ws) == t[lo..hi]
    ensures (forall k | 0 <= k < lo :: t[k] in ws) && (forall k | hi <= k < |t| :: t[k] in ws)
    ensures lo < hi ==> t[lo] !in ws && t[hi - 1] !in ws
  {
    lo := LStripIsPart(t, ws);
    var rest := t[lo..];
    var h := RStripIsPart(rest, ws);
    hi := lo + h;
    assert rest[..h] == t[lo..hi];
    if h > 0 {
      assert rest[h - 1] == t[hi - 1];
    }
    forall k | hi <= k < |t|
      ensures t[k] in ws
    {
      assert rest[k - lo] == t[k];
    }
  }

  /** After one pass no run of blanks holds two newlines, so the pattern matches nowhere, and
      the text neither starts nor ends with a blank. */
  lemma CleanIsFinal(t: string, ws: set<char>)
    requires NL in ws
    ensures var c := Clean(t, ws);
            && NoDouble(c, ws)
            && (forall i | 0 <= i <= |c| :: Match(Pattern(ws), c[i..]) == None)
            && (c != [] ==> c[0] !in ws && c[|c| - 1] !in ws)
  {
    CollapseShape(t, ws);
    var lo, hi := StripIsPart(Collapse(t, ws), ws);
    PartNoDouble(Collapse(t, ws), lo, hi, ws);
    NoDoubleIsNoMatch(Clean(t, ws), ws);
  }

  /** The cleaned text is one piece of the rewritten one, cut between blanks and something else; and
      a text in which the pattern matches nowhere is not rewritten at all. */
  lemma CleanIsPart(t: string, ws: set<char>) returns (lo: nat, hi: nat)
    requires NL in ws
    ensures var c := Collapse(t, ws);
            && lo <= hi <= |c| && Clean(t, ws) == c[lo..hi]
            && (forall k | 0 <= k < lo || hi <= k < |c| :: c[k] in ws)
            && (lo < hi ==> c[lo] !in ws && c[hi - 1] !in ws)
            && ((forall i | 0 <= i <= |t| :: Match(Pattern(ws), t[i..]) == None) ==> c == t)
  {
    lo, hi := StripIsPart(Collapse(t, ws), ws);
    NoDoubleIsNoMatch(t, ws);
    if NoDouble(t, ws) {
      CollapseFixed(t, ws);
    }
  }

  /** Cleaning twice is cleaning once, for every text. */
  lemma CleanTwice(t: string, ws: set<char>)
    requires NL in ws
    ensures Clean(Clean(t, ws), ws) == Clean(t, ws)
  {
    CleanIsFinal(t, ws);
    var c := Clean(t, ws);
    CollapseFixed(c, ws);
    assert LStrip(c, ws) == c && RStrip(c, ws) == c;
  }

  class Document {
    var pageContent: string

    constructor (pageContent: string)
      ensures this.pageContent == pageContent
    {
      this.pageContent := pageContent;
    }
  }

  /** The cleaning loop of Chunker.split.  The list may name one document twice: it is then
      cleaned twice, which is the same as once. */
  method CleanAll(docs: seq<Document>, ws: set<char>)
    requires NL in ws
    modifies docs
    ensures forall d | d in docs :: d.pageContent == Clean(old(d.pageContent), ws)
  {
    for i := 0 to |docs|
      invariant forall d | d in docs ::
          d.pageContent == if d in docs[..i] then Clean(old(d.pageContent), ws) else old(d.pageContent)
    {
      var doc := docs[i];
      var rewritten := Sub(doc.pageContent, ws);
      CleanTwice(old(doc.pageContent), ws);
      doc.pageContent := rewritten;
      doc.pageContent := Strip(doc.pageContent, ws);
      assert docs[..i + 1] == docs[..i] + [doc];
    }
  }

  // ---------------------------------------------------------------- cleaning keeps the words

  datatype Token = Word(text: string) | Gap(newline: bool)

  function WordLen(t: string, ws: set<char>): (n: nat)
    ensures n <= |t| && (forall k | 0 <= k < n :: t[k] !in ws) && (n < |t| ==> t[n] in ws)
  {
    if t != [] && t[0] !in ws then
      var m := WordLen(t[1..], ws);
      assert forall k | 1 <= k < m + 1 :: t[k] == t[1..][k - 1];
      1 + m
    else 0
  }

  /** The text as words and gaps; of a gap only whether it breaks the line is kept. */
  function Tokens(t: string, ws: set<char>): seq<Token>
    decreases |t|
  {
    if t == [] then []
    else if t[0] in ws then [Gap(NL in t[..RunLen(t, ws)])] + Tokens(t[RunLen(t, ws)..], ws)
    else [Word(t[..WordLen(t, ws)])] + Tokens(t[WordLen(t, ws)..], ws)
  }

  function TrimLeft(ts: seq<Token>): seq<Token> {
    if ts != [] && ts[0].Gap? then ts[1..] else ts
  }

  function TrimRight(ts: seq<Token>): seq<Token> {
    if ts != [] && ts[|ts| - 1].Gap? then ts[..|ts| - 1] else ts
  }

  lemma RunLenIs(t: string, n: nat, ws: set<char>)
    requires n <= |t| && (forall k | 0 <= k < n :: t[k] in ws) && (n < |t| ==> t[n] !in ws)
    ensures RunLen(t, ws) == n
  {
  }

  lemma WordLenIs(t: string, n: nat, ws: set<char>)
    requires n <= |t| && (forall k | 0 <= k < n :: t[k] !in ws) && (n < |t| ==> t[n] in ws)
    ensures WordLen(t, ws) == n
  {
  }

  lemma GapFirst(r: string, rest: string, ws: set<char>)
    requires r != [] && (forall k | 0 <= k < |r| :: r[k] in ws) && (rest != [] ==> rest[0] !in ws)
    ensures Tokens(r + rest, ws) == [Gap(NL in r)] + Tokens(rest, ws)
  {
    var t := r + rest;
    assert t[0] == r[0];
    RunLenIs(t, |r|, ws);
    assert t[..|r|] == r && t[|r|..] == rest;
  }

  lemma WordFirst(w: string, rest: string, ws: set<char>)
    requires w != [] && (forall k | 0 <= k < |w| :: w[k] !in ws) && (rest != [] ==> rest[0] in ws)
    ensures Tokens(w + rest, ws) == [Word(w)] + Tokens(rest, ws)
  {
    var t := w + rest;
    assert t[0] == w[0];
    WordLenIs(t, |w|, ws);
    assert t[..|w|] == w && t[|w|..] == rest;
  }

  lemma HeadAndRest(t: string, n: nat)
    requires 0 < n <= |t|
    ensures t[..n] == [t[0]] + t[1..][..n - 1] && t[1..][n - 1..] == t[n..]
  {
  }

  lemma {:induction false} CollapseWord(t: string, n: nat, ws: set<char>)
    requires n <= |t| && forall k | 0 <= k < n :: t[k] !in ws
    ensures Collapse(t, ws) == t[..n] + Collapse(t[n..], ws)
    decreases n
  {
    if n == 0 {
      assert t[0..] == t;
    } else {
      var rest := t[1..];
      CollapseWord(rest, n - 1, ws);
      HeadAndRest(t, n);
      Assoc([t[0]], rest[..n - 1], Collapse(t[n..], ws));
    }
  }

  lemma {:induction false} CollapseKeepsTokens(t: string, ws: set<char>)
    requires NL in ws
    ensures Tokens(Collapse(t, ws), ws) == Tokens(t, ws)
    decreases |t|
  {
    if t != [] {
      if t[0] in ws {
        var n := RunLen(t, ws);
        assert n > 0 && (n < |t| ==> t[n..][0] == t[n]);
        CollapseKeepsTokens(t[n..], ws);
        CollapseShape(t[n..], ws);
        SqueezeShape(t[..n], ws);
        GapFirst(Squeeze(t[..n]), Collapse(t[n..], ws), ws);
      } else {
        var n := WordLen(t, ws);
        assert n > 0 && (n < |t| ==> t[n..][0] == t[n]);
        CollapseKeepsTokens(t[n..], ws);
        CollapseShape(t[n..], ws);
        CollapseWord(t, n, ws);
        WordFirst(t[..n], Collapse(t[n..], ws), ws);
      }
    }
  }

  lemma SplitAt(t: string, n: nat)
    requires n <= |t|
    ensures t == t[..n] + t[n..]
  {
  }

  lemma TrimOne(g: Token, ts: seq<Token>)
    requires g.Gap?
    ensures TrimLeft([g] + ts) == ts && TrimRight(ts + [g]) == ts
  {
  }

  lemma LStripTrims(t: string, ws: set<char>)
    ensures Tokens(LStrip(t, ws), ws) == TrimLeft(Tokens(t, ws))
  {
    var lo := LStripIsPart(t, ws);
    SplitAt(t, lo);
    if lo > 0 {
      GapFirst(t[..lo], t[lo..], ws);
      TrimOne(Gap(NL in t[..lo]), Tokens(t[lo..], ws));
    }
  }

  /** The first token of a text, and the text after it. */
  lemma FirstToken(t: string, ws: set<char>) returns (head: string, tail: string, tok: Token)
    requires t != []
    ensures t == head + tail && head != []
    ensures Tokens(t, ws) == [tok] + Tokens(tail, ws)
    ensures t[0] in ws ==>
              && tok == Gap(NL in head) && (forall k | 0 <= k < |head| :: head[k] in ws)
              && (tail != [] ==> tail[0] !in ws)
    ensures t[0] !in ws ==>
              && tok == Word(head) && (forall k | 0 <= k < |head| :: head[k] !in ws)
              && (tail != [] ==> tail[0] in ws)
  {
    var n := if t[0] in ws then RunLen(t, ws) else WordLen(t, ws);
    head, tail := t[..n], t[n..];
    tok := if t[0] in ws then Gap(NL in head) else Word(head);
  }

  /** Blanks at the end add one gap to the tokens. */
  lemma {:induction false} GapLast(t: string, r: string, ws: set<char>)
    requires r != [] && (forall k | 0 <= k < |r| :: r[k] in ws) && (t != [] ==> t[|t| - 1] !in ws)
    ensures Tokens(t + r, ws) == Tokens(t, ws) + [Gap(NL in r)]
    decreases |t|
  {
    if t == [] {
      assert t + r == r + [];
      GapFirst(r, [], ws);
    } else {
      var head, tail, tok := FirstToken(t, ws);
      assert t[|t| - 1] == if tail == [] then head[|head| - 1] else tail[|tail| - 1];
      GapLast(tail, r, ws);
      Assoc(head, tail, r);
      Assoc([tok], Tokens(tail, ws), [Gap(NL in r)]);
      assert (tail + r)[0] == if tail == [] then r[0] else tail[0];
      assert t[0] == head[0];
      if t[0] in ws {
        GapFirst(head, tail + r, ws);
      } else {
        WordFirst(head, tail + r, ws);
      }
    }
  }

  lemma {:induction false} LastTokenIsWord(t: string, ws: set<char>)
    requires t != [] && t[|t| - 1] !in ws
    ensures Tokens(t, ws) != [] && Tokens(t, ws)[|Tokens(t, ws)| - 1].Word?
    decreases |t|
  {
    var head, tail, tok := FirstToken(t, ws);
    assert t[|t| - 1] == if tail == [] then head[|head| - 1] else tail[|tail| - 1];
    if tail != [] {
      LastTokenIsWord(tail, ws);
    }
  }

  lemma RStripTrims(t: string, ws: set<char>)
    ensures Tokens(RStrip(t, ws), ws) == TrimRight(Tokens(t, ws))
  {
    var hi := RStripIsPart(t, ws);
    SplitAt(t, hi);
    if hi < |t| {
      GapLast(t[..hi], t[hi..], ws);
      TrimOne(Gap(NL in t[hi..]), Tokens(t[..hi], ws));
    } else if t != [] {
      LastTokenIsWord(t, ws);
    }
  }

  /** Cleaning keeps every word and, between two words, whether the gap breaks the line; only
      the gaps before the first and after the last word go. */
  lemma CleanKeepsText(t: string, ws: set<char>)
    requires NL in ws
    ensures Tokens(Clean(t, ws), ws) == TrimRight(TrimLeft(Tokens(t, ws)))
  {
    CollapseKeepsTokens(t, ws);
    LStripTrims(Collapse(t, ws), ws);
    RStripTrims(LStrip(Collapse(t, ws), ws), ws);
  }
}
