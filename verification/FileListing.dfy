// HTTPFileHandler.ListFiles: the page of rows as response objects, with each int64 id printed
// as the last twelve hex digits of a UUID text and parsed again.

module UuidText {
  import opened Domain

  function Pow16(k: nat): nat {
    if k == 0 then 1 else 16 * Pow16(k - 1)
  }

  const DIGITS := "0123456789abcdef"

  predicate IsHex(c: char) {
    '0' <= c <= '9' || 'a' <= c <= 'f' || 'A' <= c <= 'F'
  }

  function DigitValue(c: char): (v: nat)
    requires IsHex(c)
    ensures v < 16
  {
    if '0' <= c <= '9' then c as int - '0' as int
    else if 'a' <= c <= 'f' then c as int - 'a' as int + 10
    else c as int - 'A' as int + 10
  }

  predicate AllHex(s: string) {
    forall i | 0 <= i < |s| :: IsHex(s[i])
  }

  /** The number a string of hex digits denotes, most significant digit first. */
  function HexValue(s: string): nat
    requires AllHex(s)
  {
    if s == [] then 0 else 16 * HexValue(s[..|s| - 1]) + DigitValue(s[|s| - 1])
  }

  /** The shortest lower-case hex text of n. */
  function ToHex(n: nat): (s: string)
    ensures s != [] && AllHex(s)
  {
    if n < 16 then [DIGITS[n]] else ToHex(n / 16) + [DIGITS[n % 16]]
  }

  function Zeros(n: nat): (s: string)
    ensures |s| == n && forall i | 0 <= i < n :: s[i] == '0'
  {
    seq(n, _ => '0')
  }

  function PadLeft(s: string, width: nat): string {
    if |s| < width then Zeros(width - |s|) + s else s
  }

  /** The verb %012x: a minus sign counts in the width and stands before the padding. */
  function Hex12(id: int): string {
    if id >= 0 then PadLeft(ToHex(id), 12) else "-" + PadLeft(ToHex(-id), 11)
  }

  const HEAD := "00000000-0000-0000-0000-"

  function IdText(id: int): string {
    HEAD + Hex12(id)
  }

  /** The 36 characters of the text form in section 4 of RFC 9562. */
  predicate WellFormed(s: string) {
    && |s| == 36
    && s[8] == '-' && s[13] == '-' && s[18] == '-' && s[23] == '-'
    && AllHex(s[..8]) && AllHex(s[9..13]) && AllHex(s[14..18]) && AllHex(s[19..23]) && AllHex(s[24..])
  }

  function Digits(s: string): (d: string)
    requires WellFormed(s)
    ensures AllHex(d) && |d| == 32
  {
    s[..8] + s[9..13] + s[14..18] + s[19..23] + s[24..]
  }

  /** The parser on texts of 32 to 44 characters other than 32: the plain form, and the form in
      braces, of which it drops the outer characters without looking at them. */
  function Parse(s: string): Option<nat> {
    if WellFormed(s) then Some(HexValue(Digits(s)))
    else if |s| == 38 && WellFormed(s[1..37]) then Some(HexValue(Digits(s[1..37])))
    else None
  }

  /** The 128-bit number of the UUID that the response carries: a parse error is ignored and
      leaves the zero UUID. */
  function UuidOf(id: int): nat {
    match Parse(IdText(id)) case Some(u) => u case None => 0
  }

  predicate Int64(id: int) {
    -0x8000_0000_0000_0000 <= id < 0x8000_0000_0000_0000
  }

  lemma TimesSixteen(x: nat, p: nat, y: nat, d: nat)
    ensures 16 * (x * p + y) + d == x * (16 * p) + (16 * y + d)
  {
  }

  /** The value of a text with one more digit at its end. */
  lemma LastDigit(s: string, c: char)
    requires AllHex(s) && IsHex(c)
    ensures AllHex(s + [c]) && HexValue(s + [c]) == 16 * HexValue(s) + DigitValue(c)
  {
    assert (s + [c])[..|s|] == s;
  }

  lemma {:induction false} HexValueAppend(a: string, b: string)
    requires AllHex(a) && AllHex(b)
    ensures AllHex(a + b) && HexValue(a + b) == HexValue(a) * Pow16(|b|) + HexValue(b)
  {
    if b == [] {
      assert a + b == a;
      assert Pow16(0) == 1;
    } else {
      var n := |b| - 1;
      var init, c := b[..n], b[n];
      HexValueAppend(a, init);
      LastDigit(init, c);
      LastDigit(a + init, c);
      assert init + [c] == b && (a + init) + [c] == a + b;
      TimesSixteen(HexValue(a), Pow16(n), HexValue(init), DigitValue(c));
    }
  }

  lemma {:induction false} ZerosAreZero(n: nat)
    ensures HexValue(Zeros(n)) == 0
  {
    if n > 0 {
      ZerosAreZero(n - 1);
      assert Zeros(n)[..n - 1] == Zeros(n - 1);
    }
  }

  lemma DigitShown(d: nat)
    requires d < 16
    ensures IsHex(DIGITS[d]) && DigitValue(DIGITS[d]) == d
  {
  }

  lemma {:induction false} ToHexValue(n: nat)
    ensures HexValue(ToHex(n)) == n
  {
    if n < 16 {
      DigitShown(n);
      LastDigit([], DIGITS[n]);
      assert [] + [DIGITS[n]] == ToHex(n);
    } else {
      ToHexValue(n / 16);
      DigitShown(n % 16);
      LastDigit(ToHex(n / 16), DIGITS[n % 16]);
    }
  }

  lemma BelowTimes(n: nat, p: nat)
    ensures n / 16 < p <==> n < 16 * p
  {
  }

  lemma OneDigitMore(n: nat)
    requires n >= 16
    ensures |ToHex(n)| == |ToHex(n / 16)| + 1
  {
  }

  lemma {:induction false} OneDigitFits(n: nat, k: nat)
    requires n < 16 && k > 0
    ensures n < Pow16(k)
  {
    if k > 1 {
      OneDigitFits(n, k - 1);
    } else {
      assert Pow16(1) == 16 * Pow16(0);
    }
  }

  /** n has at most k hex digits exactly when it is below 16 to the k. */
  lemma {:induction false} ToHexLength(n: nat, k: nat)
    requires k > 0
    ensures |ToHex(n)| <= k <==> n < Pow16(k)
    decreases k
  {
    if n < 16 {
      OneDigitFits(n, k);
    } else {
      OneDigitMore(n);
      BelowTimes(n, Pow16(k - 1));
      if k > 1 {
        ToHexLength(n / 16, k - 1);
      }
    }
  }

  lemma Pow16Values()
    ensures Pow16(11) == 0x1000_0000_0000 && Pow16(12) == 0x1_0000_0000_0000
  {
    assert Pow16(4) == 0x1_0000;
    assert Pow16(8) == 0x1_0000_0000;
  }

  /** Twelve digits are enough exactly up to 2 to the 48. */
  lemma TwelveDigits(n: nat)
    ensures var s := PadLeft(ToHex(n), 12);
            && AllHex(s) && HexValue(s) == n && |s| >= 12
            && (|s| == 12 <==> n < 0x1_0000_0000_0000)
  {
    Pow16Values();
    ToHexLength(n, 12);
    ToHexValue(n);
    if |ToHex(n)| < 12 {
      var z := 12 - |ToHex(n)|;
      ZerosAreZero(z);
      HexValueAppend(Zeros(z), ToHex(n));
    }
  }

  lemma HeadParts()
    ensures |HEAD| == 24
    ensures HEAD[..8] == Zeros(8) && HEAD[9..13] == Zeros(4) && HEAD[14..18] == Zeros(4) && HEAD[19..23] == Zeros(4)
    ensures HEAD[8] == '-' && HEAD[13] == '-' && HEAD[18] == '-' && HEAD[23] == '-'
  {
    assert HEAD[..8] == "00000000" == Zeros(8);
    assert HEAD[9..13] == "0000" == Zeros(4);
    assert HEAD[14..18] == "0000" && HEAD[19..23] == "0000";
  }

  lemma Split24(head: string, tail: string)
    requires |head| == 24
    ensures var s := head + tail;
            && s[24..] == tail
            && s[..8] == head[..8] && s[9..13] == head[9..13] && s[14..18] == head[14..18] && s[19..23] == head[19..23]
            && s[8] == head[8] && s[13] == head[13] && s[18] == head[18] && s[23] == head[23]
  {
  }

  lemma JoinZeros(a: nat, b: nat)
    ensures Zeros(a) + Zeros(b) == Zeros(a + b)
  {
  }

  /** The printed text has the UUID form exactly when its last part is twelve hex digits. */
  lemma NodeDecides(node: string)
    ensures WellFormed(HEAD + node) <==> |node| == 12 && AllHex(node)
    ensures WellFormed(HEAD + node) ==> Digits(HEAD + node) == Zeros(20) + node
    ensures (HEAD + node)[9] == '0'
  {
    HeadParts();
    Split24(HEAD, node);
    JoinZeros(8, 4);
    JoinZeros(12, 4);
    JoinZeros(16, 4);
    assert (HEAD + node)[9] == HEAD[9..13][0];
  }

  lemma ZeroPrefix(n: nat, s: string)
    requires AllHex(s)
    ensures AllHex(Zeros(n) + s) && HexValue(Zeros(n) + s) == HexValue(s)
  {
    ZerosAreZero(n);
    HexValueAppend(Zeros(n), s);
  }

  lemma NodeOf(id: int)
    ensures var node := Hex12(id);
            && (|node| == 12 && AllHex(node) <==> 0 <= id < 0x1_0000_0000_0000)
            && (0 <= id < 0x1_0000_0000_0000 ==> HexValue(node) == id)
  {
    if id >= 0 {
      TwelveDigits(id);
    } else {
      assert Hex12(id)[0] == '-';
    }
  }

  /** The printed text has the UUID form exactly for 0 <= id < 2 to the 48, and then its number
      is id: the low 48 bits hold it and all others are zero. */
  lemma IdTextParses(id: int)
    ensures WellFormed(IdText(id)) <==> 0 <= id < 0x1_0000_0000_0000
    ensures 0 <= id < 0x1_0000_0000_0000 ==> Parse(IdText(id)) == Some(id)
  {
    NodeOf(id);
    NodeDecides(Hex12(id));
    if 0 <= id < 0x1_0000_0000_0000 {
      ZeroPrefix(20, Hex12(id));
    }
  }

  /** Everything else, the whole int64 range included, comes out as the zero UUID. */
  lemma UuidOfId(id: int)
    ensures UuidOf(id) == if 0 <= id < 0x1_0000_0000_0000 then id else 0
  {
    IdTextParses(id);
    NodeDecides(Hex12(id));
    var s := IdText(id);
    if |s| == 38 {
      assert s[1..37][8] == s[9];
    }
  }

  /** Two int64 ids share a UUID exactly when they are equal or neither is in 1 .. 2^48 - 1. */
  lemma SameUuid(a: int, b: int)
    requires Int64(a) && Int64(b)
    ensures UuidOf(a) == UuidOf(b) <==>
            a == b || (!(0 < a < 0x1_0000_0000_0000) && !(0 < b < 0x1_0000_0000_0000))
  {
    UuidOfId(a);
    UuidOfId(b);
  }
}

module FileListing {
  import opened Domain
  import opened MetadataQuery
  import opened UuidText

  datatype FileDto = FileDto(id: nat, name: string, size: int, status: TransferStatus, tags: Option<seq<string>>)

  datatype Response = ServerError | Listing(files: array<FileDto>)

  /** f shows row e; an id outside 0 .. 2^48 - 1 shows as the zero UUID. */
  predicate Shows(f: FileDto, e: Entry) {
    && f.id == (if 0 <= e.id < 0x1_0000_0000_0000 then e.id else 0)
    && f.name == e.row.fileName && f.size == e.row.fileSize && f.status == e.row.status && f.tags == e.row.tags
  }

  /** The body of the conversion loop. */
  method ToDto(e: Entry) returns (f: FileDto)
    ensures Shows(f, e)
  {
    UuidOfId(e.id);
    f := FileDto(UuidOf(e.id), e.row.fileName, e.row.fileSize, e.row.status, e.row.tags);
  }

  /** The limit the listing asks for: twenty if none is given, and what is allowed otherwise. */
  function Asked(limit: Option<int>): (n: nat)
    ensures limit.None? ==> n == 20
    ensures limit.Some? ==> n == if limit.value > 100 then 100 else if limit.value <= 0 then 10 else limit.value
  {
    ClampLimit(if limit.Some? then limit.value else 20)
  }

  /** GET /files. */
  method ListFiles(repo: Repository, tags: Option<seq<string>>, limit: Option<int>, scan: seq<Entry>, d: Delivery)
    returns (r: Response)
    requires Lists(scan, repo.table)
    ensures var all := Arranged(scan, if tags.Some? then tags.value else []);
            && (r.ServerError? <==> !repo.connected || d.refused || BadRowIn(all, Asked(limit), 0, d))
            && (r.Listing? ==>
                  && fresh(r.files) && r.files.Length <= Asked(limit) <= 100 && r.files.Length <= |all|
                  && (r.files.Length == Asked(limit) || r.files.Length == |all| || d.cutAt == Some(r.files.Length))
                  && forall i | 0 <= i < r.files.Length ::
                       && r.files[i].id == (if 0 <= all[i].id < 0x1_0000_0000_0000 then all[i].id else 0)
                       && r.files[i].name == all[i].row.fileName && r.files[i].size == all[i].row.fileSize
                       && r.files[i].status == all[i].row.status && r.files[i].tags == all[i].row.tags)
    ensures r.Listing? && tags.Some? ==>
              forall i, t | 0 <= i < r.files.Length && t in tags.value ::
                r.files[i].tags.Some? && t in r.files[i].tags.value
  {
    var want := [];
    if tags.Some? {
      want := tags.value;
    }
    var lim := 20;
    if limit.Some? {
      lim := limit.value;
    }
    var found := FetchMetadataList(repo, want, lim, 0, scan, d);
    if found.FindFailed? {
      return ServerError;
    }
    var rows := found.rows;
    var resp := new FileDto[|rows|](_ => FileDto(0, "", 0, Pending, None));
    for i := 0 to |rows|
      invariant forall j | 0 <= j < i :: Shows(resp[j], rows[j])
    {
      var dto := ToDto(rows[i]);
      resp[i] := dto;
    }
    r := Listing(resp);
    forall i | 0 <= i < |rows|
      ensures Matches(rows[i].row, want)
    {
      ArrangedMatches(scan, repo.table, want, i);
    }
  }
}
