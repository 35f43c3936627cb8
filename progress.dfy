/** `DownloadProgress`: the two counters a download reports and the two properties computed
    from them. Both counters are C# `long`s; the percentage is an `int`. */
module Progress {
  import opened Numbers

  datatype DownloadProgress = DownloadProgress(bytesReceived: Int64, totalBytes: Int64)

  /** `IsComplete`: everything announced has arrived, and something was announced. */
  predicate IsComplete(p: DownloadProgress) {
    p.bytesReceived >= p.totalBytes && p.totalBytes > 0
  }

  /** `ProgressPercentage` as the property is written: the product is a `long` that wraps, the
      division truncates, and the `(int)` cast keeps the low 32 bits. */
  function ProgressPercentageAsWritten(p: DownloadProgress): Int32 {
    if p.totalBytes > 0 then WrapInt32(TruncDiv(WrapInt64(p.bytesReceived * 100), p.totalBytes)) else 0
  }

  /** The percentage the property documents, between 0 and 100: the floor of received / total
      in hundredths while the download is within what was announced, 100 beyond it. */
  function ProgressPercentage(p: DownloadProgress): (r: int)
    ensures 0 <= r <= 100
    ensures p.totalBytes <= 0 ==> r == 0
    ensures 0 <= p.bytesReceived <= p.totalBytes && p.totalBytes > 0 ==> r == p.bytesReceived * 100 / p.totalBytes
    ensures IsComplete(p) ==> r == 100
  {
    if p.totalBytes <= 0 then 0
    else if p.bytesReceived <= 0 then
      DivUnique(0, p.totalBytes, 0, 0);
      0
    else if p.bytesReceived >= p.totalBytes then
      DivUnique(p.totalBytes * 100, p.totalBytes, 100, 0);
      100
    else Hundredths(p.bytesReceived, p.totalBytes)
  }

  /** received * 100 / total for 0 <= received <= total, which is at most 100. */
  function Hundredths(received: nat, total: nat): (r: nat)
    requires 0 < total && received <= total
    ensures r == received * 100 / total && r <= 100
  {
    MulStepLe(100, received, total);
    DivMonotone(received * 100, total * 100, total);
    DivUnique(total * 100, total, 100, 0);
    received * 100 / total
  }

  lemma MulStepLe(c: nat, x: nat, y: nat)
    requires x <= y
    ensures x * c <= y * c
  {
    assert y * c == x * c + (y - x) * c;
  }

  /** `d * x + d <= d * y` for `x < y`. */
  lemma MulStep(d: nat, x: int, y: int)
    requires x < y
    ensures d * x + d <= d * y
  {
    assert d * y == d * x + d * (y - x);
    assert d * (y - x) == d + d * (y - x - 1);
  }

  /** Division is determined by the quotient and remainder it leaves. */
  lemma DivUnique(a: int, d: nat, q: int, r: int)
    requires d > 0 && 0 <= r < d && a == d * q + r
    ensures a / d == q
  {
    var q' := a / d;
    assert a == d * q' + a % d;
    if q' < q {
      MulStep(d, q', q);
    } else if q' > q {
      MulStep(d, q, q');
    }
  }

  lemma DivMonotone(a: nat, b: nat, d: nat)
    requires a <= b && d > 0
    ensures a / d <= b / d
  {
    var qa, qb := a / d, b / d;
    assert a == d * qa + a % d && b == d * qb + b % d;
    if qb < qa {
      MulStep(d, qb, qa);
    }
  }

  /** With no total announced, both readings are 0. */
  lemma NoTotalMeansZero(p: DownloadProgress)
    requires p.totalBytes <= 0
    ensures ProgressPercentageAsWritten(p) == 0 && ProgressPercentage(p) == 0 && !IsComplete(p)
  {
  }

  /** Within what was announced and without overflow, the property as written is the floor of
      received / total in hundredths, and it agrees with the documented percentage. */
  lemma AsWrittenWithinAnnounced(p: DownloadProgress)
    requires 0 <= p.bytesReceived <= p.totalBytes && 0 < p.totalBytes && p.bytesReceived <= MaxInt64 / 100
    ensures ProgressPercentageAsWritten(p) == p.bytesReceived * 100 / p.totalBytes
    ensures ProgressPercentageAsWritten(p) == ProgressPercentage(p)
    ensures 0 <= ProgressPercentageAsWritten(p) <= 100
  {
    var h := Hundredths(p.bytesReceived, p.totalBytes);
    assert WrapInt64(p.bytesReceived * 100) == p.bytesReceived * 100;
    assert TruncDiv(p.bytesReceived * 100, p.totalBytes) == h;
  }

  /** A complete download reads at least 100 percent, while nothing wraps. */
  lemma CompleteReadsFull(p: DownloadProgress)
    requires IsComplete(p) && p.bytesReceived <= MaxInt64 / 100
    requires p.bytesReceived * 100 / p.totalBytes <= MaxInt32
    ensures ProgressPercentageAsWritten(p) >= 100
  {
    assert WrapInt64(p.bytesReceived * 100) == p.bytesReceived * 100;
    MulStepLe(100, p.totalBytes, p.bytesReceived);
    DivMonotone(p.totalBytes * 100, p.bytesReceived * 100, p.totalBytes);
    DivUnique(p.totalBytes * 100, p.totalBytes, 100, 0);
  }

  /** More bytes than announced: the property reads beyond 100. */
  lemma OverReceiptExceedsHundred()
    ensures ProgressPercentageAsWritten(DownloadProgress(2, 1)) == 200
    ensures ProgressPercentage(DownloadProgress(2, 1)) == 100
  {
  }

  /** A complete download whose product leaves the 32-bit range reads 0 percent. */
  lemma CompleteReadsZero()
    ensures IsComplete(DownloadProgress(2147483648, 1))
    ensures ProgressPercentageAsWritten(DownloadProgress(2147483648, 1)) == 0
    ensures ProgressPercentage(DownloadProgress(2147483648, 1)) == 100
  {
    assert WrapInt64(214748364800) == 214748364800;
    assert TruncDiv(214748364800, 1) == 214748364800;
  }
}
