/**
 Multipart upload: how a file is cut into parts, what the store puts together again,
 and the progress shown on the way.  The two upload loops differ in how they pair
 chunks with part URLs.
 */
module Uploads {
  import opened Wrappers

  type byte = x: int | 0 <= x < 256

  /** 5 MiB. */
  const PART_SIZE: nat := 5_242_880

  /** Where part `i`, counted from 0, begins. */
  function Offset(i: int): int { 5_242_880 * i }

  function Min(a: int, b: int): int { if a < b then a else b }

  function Max(a: int, b: int): int { if a > b then a else b }

  /** `Math.ceil(size / PART_SIZE) || 1`. */
  function PartsCount(size: nat): nat {
    Max(1, (size + PART_SIZE - 1) / PART_SIZE)
  }

  /** `file.slice(start, end)`: negative offsets count from the end, and offsets out of
      range are clamped. */
  function Slice(file: seq<byte>, start: int, end: int): seq<byte> {
    var from := if start < 0 then Max(|file| + start, 0) else Min(start, |file|);
    var to := if end < 0 then Max(|file| + end, 0) else Min(end, |file|);
    if from < to then file[from..to] else []
  }

  /** The bytes from `start` up to the next part. */
  function Piece(file: seq<byte>, start: int): seq<byte> {
    Slice(file, start, Min(start + PART_SIZE, |file|))
  }

  datatype PartUrl = PartUrl(url: string, partNumber: nat)

  /** A PUT answered with a 2xx and perhaps an ETag, or with anything else. */
  datatype PutReply = Stored(etag: Option<string>) | Refused

  datatype Sent = Sent(partNumber: nat, chunk: seq<byte>)

  datatype Outcome = Completed(parts: seq<nat>) | Threw

  /** Part `k` as the store holds it: the last chunk PUT under that number. */
  function PartFor(sent: seq<Sent>, k: nat): seq<byte> {
    if sent == [] then []
    else
      var n := |sent| - 1;
      if sent[n].partNumber == k then sent[n].chunk else PartFor(sent[..n], k)
  }

  /** Parts 1 to `n` put together. */
  function Assembled(sent: seq<Sent>, n: nat): seq<byte> {
    if n == 0 then [] else Assembled(sent, n - 1) + PartFor(sent, n)
  }

  /** `Math.round`. */
  function Round(x: real): int { (x + 0.5).Floor }

  /** The percentage reported; none (NaN) for an empty file. */
  function Percent(uploaded: nat, size: nat): Option<int> {
    if size == 0 then None else Some(Round(uploaded as real / size as real * 100.0))
  }

  // ----- what is sent -----

  /** The PUTs of `upload.ts`: chunk i goes to the i-th URL. */
  function SentByIndex(file: seq<byte>, urls: seq<PartUrl>, n: nat): (sent: seq<Sent>)
    requires n <= |urls|
    ensures |sent| == n
  {
    if n == 0 then []
    else SentByIndex(file, urls, n - 1) + [Sent(urls[n - 1].partNumber, Piece(file, Offset(n - 1)))]
  }

  /** The PUTs of `lesson-materials.tsx`: the chunk is chosen by the URL's number. */
  function SentByNumber(file: seq<byte>, urls: seq<PartUrl>, n: nat): (sent: seq<Sent>)
    requires n <= |urls|
    ensures |sent| == n
  {
    if n == 0 then []
    else SentByNumber(file, urls, n - 1) + [Sent(urls[n - 1].partNumber, Piece(file, Offset(urls[n - 1].partNumber - 1)))]
  }

  lemma {:induction false} IndexedAt(file: seq<byte>, urls: seq<PartUrl>, n: nat, i: nat)
    requires i < n <= |urls|
    ensures SentByIndex(file, urls, n)[i] == Sent(urls[i].partNumber, Piece(file, Offset(i)))
  {
    if i < n - 1 {
      IndexedAt(file, urls, n - 1, i);
    }
  }

  lemma {:induction false} NumberedAt(file: seq<byte>, urls: seq<PartUrl>, n: nat, i: nat)
    requires i < n <= |urls|
    ensures SentByNumber(file, urls, n)[i] == Sent(urls[i].partNumber, Piece(file, Offset(urls[i].partNumber - 1)))
  {
    if i < n - 1 {
      NumberedAt(file, urls, n - 1, i);
    }
  }

  lemma {:induction false} SentNumbers(file: seq<byte>, urls: seq<PartUrl>, n: nat)
    requires n <= |urls|
    ensures forall i | 0 <= i < n :: SentByIndex(file, urls, n)[i].partNumber == urls[i].partNumber
    ensures forall i | 0 <= i < n :: SentByNumber(file, urls, n)[i].partNumber == urls[i].partNumber
  {
    if n > 0 {
      SentNumbers(file, urls, n - 1);
    }
  }

  function Numbers(urls: seq<PartUrl>, n: nat): (numbers: seq<nat>)
    requires n <= |urls|
    ensures |numbers| == n && forall i | 0 <= i < n :: numbers[i] == urls[i].partNumber
  {
    if n == 0 then [] else Numbers(urls, n - 1) + [urls[n - 1].partNumber]
  }

  /** The percentages reported after each of the first `n` parts. */
  function ProgressUpTo(size: nat, n: nat): (progress: seq<Option<int>>)
    ensures |progress| == n
    ensures forall i | 0 <= i < n :: progress[i] == Percent(Min(Offset(i + 1), size), size)
  {
    if n == 0 then [] else ProgressUpTo(size, n - 1) + [Percent(Min(Offset(n), size), size)]
  }

  function Bytes(sent: seq<Sent>): nat {
    if sent == [] then 0 else Bytes(sent[..|sent| - 1]) + |sent[|sent| - 1].chunk|
  }

  lemma {:induction false} BytesOfOneMore(sent: seq<Sent>, one: Sent)
    ensures Bytes(sent + [one]) == Bytes(sent) + |one.chunk|
  {
    assert (sent + [one])[..|sent|] == sent;
  }

  // ----- nothing is lost or duplicated -----

  lemma {:induction false} PieceSize(file: seq<byte>, i: nat)
    ensures Piece(file, Offset(i)) == file[Min(Offset(i), |file|)..Min(Offset(i + 1), |file|)]
    ensures |Piece(file, Offset(i))| == Min(Offset(i + 1), |file|) - Min(Offset(i), |file|)
  {
  }

  /** The last part begins inside the file and ends with it. */
  lemma {:induction false} PartsCover(size: nat)
    ensures Offset(PartsCount(size)) >= size && (size == 0 ==> PartsCount(size) == 1)
    ensures size > 0 ==> Offset(PartsCount(size) - 1) < size
  {
  }

  /** Every part but the last is exactly 5 MiB, and the last is not empty. */
  lemma {:induction false} FullParts(file: seq<byte>, i: nat)
    requires i < PartsCount(|file|)
    ensures i < PartsCount(|file|) - 1 ==> |Piece(file, Offset(i))| == 5 * 1024 * 1024
    ensures |file| > 0 ==> 0 < |Piece(file, Offset(i))| <= 5 * 1024 * 1024
  {
    PartsCover(|file|);
    PieceSize(file, i);
  }

  lemma {:induction false} PrefixGrows(file: seq<byte>, a: nat, b: nat)
    requires a <= b <= |file|
    ensures file[..a] + file[a..b] == file[..b]
  {
  }

  lemma {:induction false} AssembledPrefix(file: seq<byte>, sent: seq<Sent>, k: nat)
    requires forall j: nat | 1 <= j <= k :: PartFor(sent, j) == Piece(file, Offset(j - 1))
    ensures Assembled(sent, k) == file[..Min(Offset(k), |file|)]
    decreases k
  {
    if k > 0 {
      AssembledPrefix(file, sent, k - 1);
      PieceSize(file, k - 1);
      PrefixGrows(file, Min(Offset(k - 1), |file|), Min(Offset(k), |file|));
    }
  }

  predicate Distinct(urls: seq<PartUrl>) {
    forall i, j | 0 <= i < j < |urls| :: urls[i].partNumber != urls[j].partNumber
  }

  /** The part numbers handed out are 1 to n, in some order. */
  ghost predicate Permutation(urls: seq<PartUrl>, n: nat) {
    && |urls| == n
    && Distinct(urls)
    && (forall k: nat | 1 <= k <= n :: HasNumber(urls, k))
  }

  predicate HasNumber(urls: seq<PartUrl>, k: nat) {
    exists i :: 0 <= i < |urls| && urls[i].partNumber == k
  }

  predicate InOrder(urls: seq<PartUrl>) {
    forall i | 0 <= i < |urls| :: urls[i].partNumber == i + 1
  }

  lemma {:induction false} PartForIs(sent: seq<Sent>, i: nat)
    requires i < |sent|
    requires forall j, k | 0 <= j < k < |sent| :: sent[j].partNumber != sent[k].partNumber
    ensures PartFor(sent, sent[i].partNumber) == sent[i].chunk
    decreases |sent|
  {
    var n := |sent| - 1;
    if i < n {
      PartForIs(sent[..n], i);
    }
  }

  /** What the store holds under the number of the i-th URL. */
  lemma {:induction false} PartByNumber(file: seq<byte>, urls: seq<PartUrl>, i: nat)
    requires Distinct(urls) && i < |urls|
    ensures PartFor(SentByNumber(file, urls, |urls|), urls[i].partNumber) == Piece(file, Offset(urls[i].partNumber - 1))
  {
    SentNumbers(file, urls, |urls|);
    PartForIs(SentByNumber(file, urls, |urls|), i);
    NumberedAt(file, urls, |urls|, i);
  }

  lemma {:induction false} PartByIndex(file: seq<byte>, urls: seq<PartUrl>, i: nat)
    requires Distinct(urls) && i < |urls|
    ensures PartFor(SentByIndex(file, urls, |urls|), urls[i].partNumber) == Piece(file, Offset(i))
  {
    SentNumbers(file, urls, |urls|);
    PartForIs(SentByIndex(file, urls, |urls|), i);
    IndexedAt(file, urls, |urls|, i);
  }

  lemma {:induction false} ByNumberPieces(file: seq<byte>, urls: seq<PartUrl>, k: nat)
    requires Distinct(urls) && HasNumber(urls, k)
    ensures PartFor(SentByNumber(file, urls, |urls|), k) == Piece(file, Offset(k - 1))
  {
    var i: nat :| i < |urls| && urls[i].partNumber == k;
    PartByNumber(file, urls, i);
  }

  /** By part number, the file comes back whatever order the URLs are in. */
  lemma {:induction false} ByNumberRestoresTheFile(file: seq<byte>, urls: seq<PartUrl>)
    requires Permutation(urls, PartsCount(|file|))
    ensures Assembled(SentByNumber(file, urls, |urls|), PartsCount(|file|)) == file
  {
    var n := PartsCount(|file|);
    var sent := SentByNumber(file, urls, n);
    forall k: nat | 1 <= k <= n
      ensures PartFor(sent, k) == Piece(file, Offset(k - 1))
    {
      assert HasNumber(urls, k);
      ByNumberPieces(file, urls, k);
    }
    AssembledPrefix(file, sent, n);
    PartsCover(|file|);
  }

  lemma {:induction false} AssembledGrows(sent: seq<Sent>, k: nat, n: nat)
    requires k <= n
    ensures Assembled(sent, k) <= Assembled(sent, n)
    decreases n
  {
    if k < n {
      AssembledGrows(sent, k, n - 1);
    }
  }

  /** A file that tells a misplaced part: all zeros but the first byte of part i+1. */
  function Marked(size: nat, i: nat): (file: seq<byte>)
    ensures |file| == size
  {
    seq(size, x => if x == Offset(i) then 1 else 0)
  }

  lemma {:induction false} FirstParts(file: seq<byte>, urls: seq<PartUrl>, sent: seq<Sent>, i: nat)
    requires sent == SentByIndex(file, urls, |urls|) && Permutation(urls, |urls|) && i <= |urls|
    requires forall j | 0 <= j < i :: urls[j].partNumber == j + 1
    ensures Assembled(sent, i) == file[..Min(Offset(i), |file|)]
  {
    forall k: nat | 1 <= k <= i
      ensures PartFor(sent, k) == Piece(file, Offset(k - 1))
    {
      PartByIndex(file, urls, k - 1);
    }
    AssembledPrefix(file, sent, i);
  }

  lemma {:induction false} OtherPart(file: seq<byte>, urls: seq<PartUrl>, sent: seq<Sent>, i: nat) returns (j: nat)
    requires sent == SentByIndex(file, urls, |urls|) && Permutation(urls, |urls|)
    requires i < |urls| && urls[i].partNumber != i + 1
    ensures j < |urls| && j != i && PartFor(sent, i + 1) == Piece(file, Offset(j))
  {
    assert HasNumber(urls, i + 1);
    j :| 0 <= j < |urls| && urls[j].partNumber == i + 1;
    PartByIndex(file, urls, j);
  }

  lemma {:induction false} UnmarkedPart(size: nat, i: nat, j: nat)
    requires i < PartsCount(size) && j < PartsCount(size) && i != j && size > 0
    ensures Piece(Marked(size, i), Offset(j)) != [] && Piece(Marked(size, i), Offset(j))[0] == 0
  {
    FullParts(Marked(size, i), j);
    PieceSize(Marked(size, i), j);
  }

  lemma {:induction false} MarkLost(size: nat, i: nat, sent: seq<Sent>, n: nat)
    requires i < n == PartsCount(size) && size > 0
    requires Assembled(sent, i) == Marked(size, i)[..Min(Offset(i), size)]
    requires PartFor(sent, i + 1) != [] && PartFor(sent, i + 1)[0] == 0
    ensures Assembled(sent, n) != Marked(size, i)
  {
    PartsCover(size);
    AssembledGrows(sent, i + 1, n);
    var at := Offset(i);
    assert at < size && |Assembled(sent, i)| == at;
    assert Assembled(sent, i + 1)[at] == 0;
    assert Assembled(sent, n)[at] == Assembled(sent, i + 1)[at];
    assert Marked(size, i)[at] == 1;
  }

  lemma {:induction false} Misplaced(size: nat, urls: seq<PartUrl>, i: nat)
    requires size > 0 && Permutation(urls, PartsCount(size)) && i < |urls|
    requires urls[i].partNumber != i + 1 && forall j | 0 <= j < i :: urls[j].partNumber == j + 1
    ensures Assembled(SentByIndex(Marked(size, i), urls, |urls|), PartsCount(size)) != Marked(size, i)
  {
    var sent := SentByIndex(Marked(size, i), urls, |urls|);
    FirstParts(Marked(size, i), urls, sent, i);
    var j := OtherPart(Marked(size, i), urls, sent, i);
    UnmarkedPart(size, i, j);
    MarkLost(size, i, sent, |urls|);
  }

  lemma {:induction false} FirstOutOfOrder(urls: seq<PartUrl>, from: nat) returns (i: nat)
    requires !InOrder(urls) && from <= |urls|
    requires forall j | 0 <= j < from :: urls[j].partNumber == j + 1
    ensures i < |urls| && urls[i].partNumber != i + 1 && forall j | 0 <= j < i :: urls[j].partNumber == j + 1
    decreases |urls| - from
  {
    if urls[from].partNumber != from + 1 {
      i := from;
    } else {
      i := FirstOutOfOrder(urls, from + 1);
    }
  }

  /** By index, every file of the given size comes back exactly when URL i is the URL of
      part i+1. */
  lemma {:induction false} ByIndexRestoresEveryFileIff(size: nat, urls: seq<PartUrl>)
    requires size > 0 && Permutation(urls, PartsCount(size))
    ensures (forall file: seq<byte> | |file| == size ::
               Assembled(SentByIndex(file, urls, |urls|), PartsCount(size)) == file)
            <==> InOrder(urls)
  {
    if InOrder(urls) {
      forall file: seq<byte> | |file| == size
        ensures Assembled(SentByIndex(file, urls, |urls|), PartsCount(size)) == file
      {
        var sent := SentByIndex(file, urls, |urls|);
        forall k: nat | 1 <= k <= |urls|
          ensures PartFor(sent, k) == Piece(file, Offset(k - 1))
        {
          PartByIndex(file, urls, k - 1);
        }
        AssembledPrefix(file, sent, |urls|);
        PartsCover(size);
      }
    } else {
      var i := FirstOutOfOrder(urls, 0);
      Misplaced(size, urls, i);
    }
  }

  // ----- every byte is counted once -----

  lemma {:induction false} NothingAssembled(n: nat)
    ensures Assembled([], n) == []
  {
    if n > 0 {
      NothingAssembled(n - 1);
    }
  }

  lemma {:induction false} NoSuchPart(sent: seq<Sent>, k: nat)
    requires forall one <- sent :: one.partNumber != k
    ensures PartFor(sent, k) == []
    decreases |sent|
  {
    if sent != [] {
      NoSuchPart(sent[..|sent| - 1], k);
    }
  }

  lemma {:induction false} OneMoreAssembled(sent: seq<Sent>, one: Sent, n: nat)
    requires forall other <- sent :: other.partNumber != one.partNumber
    ensures |Assembled(sent + [one], n)| == |Assembled(sent, n)| + (if 1 <= one.partNumber <= n then |one.chunk| else 0)
  {
    if n > 0 {
      OneMoreAssembled(sent, one, n - 1);
      assert (sent + [one])[..|sent|] == sent;
      if one.partNumber == n {
        NoSuchPart(sent, n);
      }
    }
  }

  /** Distinct parts numbered 1 to `n` are as long together as one by one. */
  lemma {:induction false} AssembledCounts(sent: seq<Sent>, n: nat)
    requires forall one <- sent :: 1 <= one.partNumber <= n
    requires forall i, j | 0 <= i < j < |sent| :: sent[i].partNumber != sent[j].partNumber
    ensures |Assembled(sent, n)| == Bytes(sent)
    decreases |sent|
  {
    if sent == [] {
      NothingAssembled(n);
    } else {
      var init, one := sent[..|sent| - 1], sent[|sent| - 1];
      assert sent == init + [one];
      AssembledCounts(init, n);
      OneMoreAssembled(init, one, n);
    }
  }

  function NumbersUpTo(n: nat): (numbers: set<nat>)
    ensures |numbers| == n && forall k :: k in numbers <==> 1 <= k <= n
  {
    if n == 0 then {} else NumbersUpTo(n - 1) + {n}
  }

  lemma {:induction false} AtMostAsMany(urls: seq<PartUrl>)
    ensures |set url <- urls :: url.partNumber| <= |urls|
  {
    if urls != [] {
      var init, last := urls[..|urls| - 1], urls[|urls| - 1];
      AtMostAsMany(init);
      assert urls == init + [last];
      assert (set url <- urls :: url.partNumber) == (set url <- init :: url.partNumber) + {last.partNumber};
    }
  }

  /** `n` URLs that have all numbers from 1 to `n` have no others. */
  lemma {:induction false} NoOtherNumbers(urls: seq<PartUrl>, n: nat)
    requires Permutation(urls, n)
    ensures forall url <- urls :: 1 <= url.partNumber <= n
  {
    var had, wanted := set url <- urls :: url.partNumber, NumbersUpTo(n);
    AtMostAsMany(urls);
    forall k | k in wanted ensures k in had {
      assert HasNumber(urls, k);
    }
    assert |had| == |wanted| + |had - wanted|;
    assert had - wanted == {};
    forall url <- urls ensures 1 <= url.partNumber <= n {
      assert url.partNumber in had;
      assert url.partNumber !in had - wanted;
    }
  }

  /** So the bytes `lesson-materials.tsx` counts add up to the size it shows as total. */
  lemma {:induction false} LoadedIsTheFile(file: seq<byte>, urls: seq<PartUrl>)
    requires Permutation(urls, PartsCount(|file|))
    ensures Bytes(SentByNumber(file, urls, |urls|)) == |file|
  {
    var sent := SentByNumber(file, urls, |urls|);
    NoOtherNumbers(urls, PartsCount(|file|));
    SentNumbers(file, urls, |urls|);
    forall one <- sent ensures 1 <= one.partNumber <= PartsCount(|file|) {
      var i :| 0 <= i < |sent| && sent[i] == one;
      assert urls[i] in urls;
    }
    AssembledCounts(sent, PartsCount(|file|));
    ByNumberRestoresTheFile(file, urls);
  }

  // ----- progress -----

  lemma {:induction false} FractionGrows(a: real, b: real, size: real)
    requires a <= b && size > 0.0
    ensures a / size <= b / size
  {
  }

  lemma {:induction false} HundredfoldGrows(x: real, y: real)
    requires x <= y
    ensures x * 100.0 <= y * 100.0 && Round(x * 100.0) <= Round(y * 100.0)
  {
  }

  lemma {:induction false} PercentGrows(a: nat, b: nat, size: nat)
    requires a <= b && size > 0
    ensures Percent(a, size).value <= Percent(b, size).value
  {
    FractionGrows(a as real, b as real, size as real);
    HundredfoldGrows(a as real / size as real, b as real / size as real);
  }

  lemma {:induction false} RoundIsNearest(x: real)
    ensures -0.5 < Round(x) as real - x <= 0.5
  {
  }

  lemma {:induction false} TimesQuotient(a: real, b: real)
    requires b > 0.0
    ensures a / b * b == a
  {
  }

  lemma {:induction false} HalfScaled(d: real, n: real, scaled: real)
    requires -0.5 < d <= 0.5 && n > 0.0 && scaled == d * n
    ensures -n < 2.0 * scaled <= n
  {
  }

  lemma {:induction false} ScaledDifference(percent: real, share: real, n: real)
    ensures (percent - share * 100.0) * n == percent * n - 100.0 * (share * n)
  {
  }

  lemma {:induction false} ScaledBounds(percent: real, share: real, n: real, product: real, whole: real)
    requires -0.5 < percent - share * 100.0 <= 0.5 && n > 0.0
    requires product == percent * n && whole == share * n
    ensures -n < 2.0 * (product - 100.0 * whole) <= n
  {
    ScaledDifference(percent, share, n);
    HalfScaled(percent - share * 100.0, n, product - 100.0 * whole);
  }

  lemma {:induction false} WholeProduct(a: int, b: int)
    ensures (a * b) as real == a as real * b as real
  {
  }

  /** The percentage is the whole number nearest to the share of bytes uploaded, the
      greater of two. */
  lemma {:induction false} PercentIsNearest(uploaded: nat, size: nat)
    requires size > 0
    ensures var off := Percent(uploaded, size).value * size - 100 * uploaded;
            2 * off + size > 0 && 2 * off <= size
  {
    var share := uploaded as real / size as real;
    var percent := Percent(uploaded, size).value;
    var product := percent * size;
    RoundIsNearest(share * 100.0);
    TimesQuotient(uploaded as real, size as real);
    WholeProduct(percent, size);
    ScaledBounds(percent as real, share, size as real, product as real, uploaded as real);
  }

  lemma {:induction false} PercentEnds(size: nat)
    requires size > 0
    ensures Percent(0, size) == Some(0) && Percent(size, size) == Some(100)
  {
    assert 0 as real / size as real == 0.0;
    assert size as real / size as real == 1.0;
  }

  /** An empty file has no percentage. */
  lemma {:induction false} NoPercentOfNothing(uploaded: nat)
    ensures Percent(uploaded, 0) == None
  {
  }

  /** Percentages between 0 and 100 that never go back. */
  predicate Rises(progress: seq<Option<int>>) {
    && (forall i | 0 <= i < |progress| :: progress[i].Some? && 0 <= progress[i].value <= 100)
    && (forall i, j | 0 <= i < j < |progress| :: progress[i].value <= progress[j].value)
  }

  /** On a file that is not empty, what `upload.ts` reports never goes back, and after
      the last part it is 100. */
  lemma {:induction false} ProgressIsMonotone(size: nat, n: nat)
    ensures size > 0 ==> Rises(ProgressUpTo(size, n))
    ensures size > 0 && n == PartsCount(size) ==> ProgressUpTo(size, n)[n - 1] == Some(100)
  {
    if size > 0 {
      var progress := ProgressUpTo(size, n);
      forall i, j | 0 <= i <= j < n
        ensures progress[i].Some? && progress[j].Some? && 0 <= progress[i].value <= progress[j].value <= 100
      {
        PercentGrows(0, Min(Offset(i + 1), size), size);
        PercentGrows(Min(Offset(i + 1), size), Min(Offset(j + 1), size), size);
        PercentGrows(Min(Offset(j + 1), size), size, size);
        PercentEnds(size);
      }
      PartsCover(size);
      PercentEnds(size);
    }
  }

  // ----- the two loops -----

  /** The i-th PUT of `upload.ts` goes through. */
  predicate Accepted(urls: seq<PartUrl>, reply: nat -> PutReply, i: nat) {
    i < |urls| && reply(i).Stored? && reply(i).etag.Some? && reply(i).etag.value != ""
  }

  /** The first `i` PUTs of `upload.ts`, their numbers, bytes and percentages. */
  predicate SentSoFar(file: seq<byte>, urls: seq<PartUrl>, i: nat,
                      sent: seq<Sent>, parts: seq<nat>, uploadedBytes: nat, progress: seq<Option<int>>)
  {
    && i <= |urls| && sent == SentByIndex(file, urls, i) && parts == Numbers(urls, i)
    && uploadedBytes == Min(Offset(i), |file|) && progress == ProgressUpTo(|file|, i)
  }

  lemma {:induction false} OneMoreSent(file: seq<byte>, urls: seq<PartUrl>, i: nat,
                                       parts: seq<nat>, uploadedBytes: nat, progress: seq<Option<int>>)
    requires i < |urls| && SentSoFar(file, urls, i, SentByIndex(file, urls, i), parts, uploadedBytes, progress)
    ensures var chunk := Piece(file, Offset(i));
            SentSoFar(file, urls, i + 1,
                      SentByIndex(file, urls, i) + [Sent(urls[i].partNumber, chunk)], parts + [urls[i].partNumber],
                      uploadedBytes + |chunk|, progress + [Percent(uploadedBytes + |chunk|, |file|)])
  {
    PieceSize(file, i);
  }

  /** Completes exactly when every part has a URL and is stored with an ETag; then the
      PUTs, the part list and the progress are those of the whole file.  The progress
      never goes back, and for a file that is not empty it ends at 100. */
  method UploadByIndex(file: seq<byte>, urls: seq<PartUrl>, reply: nat -> PutReply)
    returns (outcome: Outcome, sent: seq<Sent>, progress: seq<Option<int>>)
    ensures outcome.Completed? <==> forall i | 0 <= i < PartsCount(|file|) :: Accepted(urls, reply, i)
    ensures outcome.Completed? ==>
              && PartsCount(|file|) <= |urls|
              && sent == SentByIndex(file, urls, PartsCount(|file|))
              && outcome.parts == Numbers(urls, PartsCount(|file|))
    ensures |progress| <= PartsCount(|file|) && (outcome.Completed? ==> |progress| == PartsCount(|file|))
    ensures progress == ProgressUpTo(|file|, |progress|)
    ensures |file| > 0 ==> Rises(progress)
    ensures |file| > 0 && outcome.Completed? ==> progress[|progress| - 1] == Some(100)
  {
    var partsCount := PartsCount(|file|);
    var parts: seq<nat> := [];
    var uploadedBytes: nat := 0;
    sent := [];
    progress := [];
    for i := 0 to partsCount
      invariant SentSoFar(file, urls, i, sent, parts, uploadedBytes, progress)
      invariant forall j | 0 <= j < i :: Accepted(urls, reply, j)
    {
      var start := Offset(i);
      var end := Min(start + PART_SIZE, |file|);
      var chunk := Slice(file, start, end);
      ProgressIsMonotone(|file|, i);
      if i >= |urls| {
        assert !Accepted(urls, reply, i);
        return Threw, sent, progress;
      }
      OneMoreSent(file, urls, i, parts, uploadedBytes, progress);
      sent := sent + [Sent(urls[i].partNumber, chunk)];
      match reply(i) {
        case Refused =>
          assert !Accepted(urls, reply, i);
          return Threw, sent, progress;
        case Stored(etag) =>
          if etag.None? || etag.value == "" {
            assert !Accepted(urls, reply, i);
            return Threw, sent, progress;
          }
      }
      parts := parts + [urls[i].partNumber];
      uploadedBytes := uploadedBytes + |chunk|;
      progress := progress + [Percent(uploadedBytes, |file|)];
    }
    ProgressIsMonotone(|file|, partsCount);
    outcome := Completed(parts);
  }

  /** The i-th PUT of `lesson-materials.tsx` goes through, ETag or not. */
  predicate Stores(reply: nat -> PutReply, i: nat) { reply(i).Stored? }

  /** The first `i` PUTs of `lesson-materials.tsx`, their numbers and bytes. */
  predicate LoadedSoFar(file: seq<byte>, urls: seq<PartUrl>, i: nat, sent: seq<Sent>, parts: seq<nat>, loaded: nat) {
    i <= |urls| && sent == SentByNumber(file, urls, i) && parts == Numbers(urls, i) && loaded == Bytes(sent)
  }

  lemma {:induction false} OneMoreLoaded(file: seq<byte>, urls: seq<PartUrl>, i: nat, sent: seq<Sent>, parts: seq<nat>, loaded: nat)
    requires LoadedSoFar(file, urls, i, sent, parts, loaded) && i < |urls|
    ensures var part := urls[i];
            var blob := Piece(file, Offset(part.partNumber - 1));
            LoadedSoFar(file, urls, i + 1, sent + [Sent(part.partNumber, blob)], parts + [part.partNumber], loaded + |blob|)
  {
    BytesOfOneMore(sent, Sent(urls[i].partNumber, Piece(file, Offset(urls[i].partNumber - 1))));
  }

  /** Completes exactly when every PUT is answered with a 2xx; if the part numbers are a
      permutation, the bytes counted are then all of the file's. */
  method UploadByNumber(file: seq<byte>, urls: seq<PartUrl>, reply: nat -> PutReply)
    returns (outcome: Outcome, sent: seq<Sent>, loaded: nat)
    ensures outcome.Completed? <==> forall i | 0 <= i < |urls| :: Stores(reply, i)
    ensures outcome.Completed? ==>
              sent == SentByNumber(file, urls, |urls|) && outcome.parts == Numbers(urls, |urls|) && loaded == Bytes(sent)
    ensures outcome.Completed? && Permutation(urls, PartsCount(|file|)) ==> loaded == |file|
  {
    var parts: seq<nat> := [];
    loaded := 0;
    sent := [];
    for i := 0 to |urls|
      invariant LoadedSoFar(file, urls, i, sent, parts, loaded)
      invariant forall j | 0 <= j < i :: Stores(reply, j)
    {
      var part := urls[i];
      var start := Offset(part.partNumber - 1);
      var end := Min(start + PART_SIZE, |file|);
      var blob := Slice(file, start, end);
      OneMoreLoaded(file, urls, i, sent, parts, loaded);
      sent := sent + [Sent(part.partNumber, blob)];
      if !Stores(reply, i) {
        return Threw, sent, loaded;
      }
      parts := parts + [part.partNumber];
      loaded := loaded + |blob|;
    }
    if Permutation(urls, PartsCount(|file|)) {
      LoadedIsTheFile(file, urls);
    }
    outcome := Completed(parts);
  }
}
