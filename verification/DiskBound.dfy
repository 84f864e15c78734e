/**
 The disk space an import asks for (internal/app/first_launch_seed.go) against the space the unpacked bundle
 takes, in 64-bit arithmetic whose every overflow is caught.
 */
module DiskBound {
  import opened Ordering

  const LIMIT: nat := 0x1_0000_0000_0000_0000

  type uint64 = n: nat | n < LIMIT

  const RESERVE: uint64 := 0x2000_0000

  /** `bootstrapstate.BundleFootprint`. */
  datatype Footprint = Footprint(dataBytes: uint64, regularFiles: uint64, directories: uint64, databaseBytes: uint64)

  function CheckedMultiply(left: uint64, right: uint64): (r: Option<uint64>)
    ensures r == if Product(left, right) < LIMIT then Some(Product(left, right)) else None
  {
    if left != 0 && right > (LIMIT - 1) / left then
      QuotientBound(left, right);
      None
    else
      QuotientBound(left, right);
      Some(left * right)
  }

  /** The division test is exact: `right` exceeds the quotient just when the product does not fit. */
  lemma QuotientBound(left: nat, right: nat)
    ensures left == 0 ==> left * right == 0
    ensures left != 0 ==> (right > (LIMIT - 1) / left <==> left * right >= LIMIT)
  {
    if left != 0 {
      var q := (LIMIT - 1) / left;
      assert left * q <= LIMIT - 1 < left * q + left;
      if right > q {
        assert left * right >= left * (q + 1) by { MultiplyMonotone(left, q + 1, right); }
      } else {
        assert left * right <= left * q by { MultiplyMonotone(left, right, q); }
      }
    }
  }

  lemma MultiplyMonotone(left: nat, a: nat, b: nat)
    requires a <= b
    ensures left * a <= left * b
  {
    assert left * b == left * a + left * (b - a);
  }

  function CheckedAdd(left: uint64, right: uint64): (r: Option<uint64>)
    ensures r == if left + right < LIMIT then Some(left + right) else None
  {
    if right > LIMIT - 1 - left then None else Some(left + right)
  }

  function AddUp(a: uint64, b: uint64, c: uint64, d: uint64): (r: Option<uint64>)
    ensures r == if a + b + c + d < LIMIT then Some(a + b + c + d) else None
  {
    var first := CheckedAdd(a, b);
    if first.None? then None else
    var second := CheckedAdd(first.value, c);
    if second.None? then None else CheckedAdd(second.value, d)
  }

  function Reserve(footprint: Footprint): uint64
  {
    if footprint.databaseBytes > RESERVE then footprint.databaseBytes else RESERVE
  }

  /** `firstLaunchRequiredDiskBytes`. */
  function RequiredBytes(footprint: Footprint, blockSize: uint64): Option<uint64>
  {
    if blockSize == 0 then None else
    var rounding := CheckedMultiply(footprint.regularFiles, blockSize - 1);
    if rounding.None? then None else
    var directories := CheckedMultiply(footprint.directories, blockSize);
    if directories.None? then None else
    AddUp(footprint.dataBytes, rounding.value, directories.value, Reserve(footprint))
  }

  /** A product under a name, so that statements about it stay linear. */
  function Product(a: nat, b: nat): (r: nat) { a * b }

  /** The larger of two amounts. */
  function Max(a: nat, b: nat): (r: nat)
    ensures r >= a && r >= b && (r == a || r == b)
  {
    if a < b then b else a
  }

  /** The sum the function means, without a limit; the reserve is half a gibibyte, or a copy of the database. */
  function TrueSum(footprint: Footprint, blockSize: nat): nat
    requires blockSize > 0
  {
    footprint.dataBytes + Product(footprint.regularFiles, blockSize - 1)
    + Product(footprint.directories, blockSize) + Max(footprint.databaseBytes, 512 * 1024 * 1024)
  }

  /** No intermediate check gives up too early and none lets an overflow through. */
  lemma RequiredBytesExact(footprint: Footprint, blockSize: uint64)
    ensures RequiredBytes(footprint, blockSize).Some? <==> blockSize != 0 && TrueSum(footprint, blockSize) < LIMIT
    ensures RequiredBytes(footprint, blockSize).Some? ==>
      RequiredBytes(footprint, blockSize).value == TrueSum(footprint, blockSize)
  {
    if blockSize != 0 {
      var a, b := Product(footprint.regularFiles, blockSize - 1), Product(footprint.directories, blockSize);
      assert CheckedMultiply(footprint.regularFiles, blockSize - 1) == if a < LIMIT then Some(a) else None;
      assert CheckedMultiply(footprint.directories, blockSize) == if b < LIMIT then Some(b) else None;
    }
  }

  function Sum(sizes: seq<nat>): nat
  {
    if sizes == [] then 0 else sizes[0] + Sum(sizes[1..])
  }

  /** A file's allocation in whole blocks. */
  function Rounded(size: nat, blockSize: nat): nat
    requires blockSize > 0
  {
    (size + blockSize - 1) / blockSize * blockSize
  }

  function SumRounded(sizes: seq<nat>, blockSize: nat): nat
    requires blockSize > 0
  {
    if sizes == [] then 0 else Rounded(sizes[0], blockSize) + SumRounded(sizes[1..], blockSize)
  }

  lemma RoundedBound(size: nat, blockSize: nat)
    requires blockSize > 0
    ensures size <= Rounded(size, blockSize) <= size + (blockSize - 1)
  {
    var n := size + blockSize - 1;
    assert n == n / blockSize * blockSize + n % blockSize;
  }

  lemma OneMore(n: nat, b: nat)
    ensures Product(n + 1, b) == Product(n, b) + b
  {
  }

  lemma {:induction false} SumRoundedBound(sizes: seq<nat>, blockSize: nat)
    requires blockSize > 0
    ensures Sum(sizes) <= SumRounded(sizes, blockSize) <= Sum(sizes) + Product(|sizes|, blockSize - 1)
  {
    if sizes != [] {
      RoundedBound(sizes[0], blockSize);
      SumRoundedBound(sizes[1..], blockSize);
      OneMore(|sizes[1..]|, blockSize - 1);
    }
  }

  /**
   Whatever files make up a footprint, a granted amount covers their block-rounded sizes, one block for every
   directory, and the reserve.
   */
  lemma RequiredBytesCover(footprint: Footprint, blockSize: uint64, sizes: seq<nat>)
    requires Sum(sizes) == footprint.dataBytes && |sizes| == footprint.regularFiles
    requires RequiredBytes(footprint, blockSize).Some?
    ensures RequiredBytes(footprint, blockSize).value
            >= SumRounded(sizes, blockSize) + Product(footprint.directories, blockSize) + RESERVE
    ensures RequiredBytes(footprint, blockSize).value
            >= SumRounded(sizes, blockSize) + Product(footprint.directories, blockSize) + footprint.databaseBytes
  {
    RequiredBytesExact(footprint, blockSize);
    SumRoundedBound(sizes, blockSize);
  }

  lemma BlocksAtLeast(count: nat, blockSize: nat)
    requires blockSize > 0
    ensures Product(count, blockSize) >= count
  {
    MultiplyMonotone(count, 1, blockSize);
  }

  /**
   A footprint whose byte and directory counts have wrapped at 64 bits is never granted enough, and one whose counts
   have not always is. `database` is the size of one of the files; the reserve must have room for a copy of it.
   */
  lemma WrappedBytesNeverCover(footprint: Footprint, blockSize: uint64, sizes: seq<nat>, directories: nat,
                               database: nat)
    requires Sum(sizes) % LIMIT == footprint.dataBytes && |sizes| == footprint.regularFiles
    requires directories % LIMIT == footprint.directories
    requires database % LIMIT == footprint.databaseBytes && database <= Sum(sizes)
    requires RequiredBytes(footprint, blockSize).Some?
    ensures blockSize > 0
    ensures RequiredBytes(footprint, blockSize).value
            >= SumRounded(sizes, blockSize) + Product(directories, blockSize) + Max(database, RESERVE)
            <==> Sum(sizes) < LIMIT && directories < LIMIT
  {
    RequiredBytesExact(footprint, blockSize);
    hide RequiredBytes, TrueSum, Reserve, Sum, SumRounded;
    SumRoundedBound(sizes, blockSize);
    BlocksAtLeast(directories, blockSize);
    hide Product;
    if Sum(sizes) < LIMIT && directories < LIMIT { RequiredBytesCover(footprint, blockSize, sizes); }
  }
}
