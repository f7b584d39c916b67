/** Types shared by every component: options, status codes, machine integers and
    the byte-wise order of `std::string`. */
module Base {

  datatype Option<+T> = None | Some(value: T)

  /** The status codes the modelled operations return. */
  datatype Code =
    | Success
    | PartialResult
    | InvalidArgument
    | NotInitialized
    | NotFound
    | Unsupported
    | Unavailable
    | StaleGeneration
    | ResourceExhausted
    | BufferTooSmall
    | Timeout
    | PermissionDenied
    | Internal

  /** `Status::ok` or the partial result that readers also accept. */
  predicate Readable(c: Code) {
    c.Success? || c.PartialResult?
  }

  const UINT32_MAX: nat := 0xFFFF_FFFF
  const UINT64_MAX: nat := 0xFFFF_FFFF_FFFF_FFFF
  const INT64_MAX: nat := 0x7FFF_FFFF_FFFF_FFFF

  type uint8 = n: int | 0 <= n < 256
  type uint32 = n: int | 0 <= n <= UINT32_MAX
  type uint64 = n: int | 0 <= n <= UINT64_MAX

  /** Sizes of C++ objects: positive, otherwise unknown. */
  type positive = n: nat | 0 < n witness 1

  function Min(a: int, b: int): int { if a <= b then a else b }

  function Max(a: int, b: int): int { if a <= b then b else a }

  /** The order of `std::string`, which `std::map` and `std::set` iterate in. */
  predicate StrLeq(a: string, b: string) {
    a == [] || (b != [] && (a[0] < b[0] || (a[0] == b[0] && StrLeq(a[1..], b[1..]))))
  }

  predicate StrLess(a: string, b: string) {
    a != b && StrLeq(a, b)
  }

  lemma {:induction false} StrTotal(a: string, b: string)
    ensures StrLeq(a, b) || StrLeq(b, a)
  {
    if a != [] && b != [] {
      StrTotal(a[1..], b[1..]);
    }
  }

  lemma {:induction false} StrAntisymmetric(a: string, b: string)
    ensures StrLeq(a, b) && StrLeq(b, a) ==> a == b
  {
    if a != [] && b != [] {
      StrAntisymmetric(a[1..], b[1..]);
      assert a == [a[0]] + a[1..] && b == [b[0]] + b[1..];
    }
  }

  lemma {:induction false} StrTransitive(a: string, b: string, c: string)
    requires StrLeq(a, b) && StrLeq(b, c)
    ensures StrLeq(a, c)
  {
    if a != [] && a[0] == b[0] == c[0] {
      StrTransitive(a[1..], b[1..], c[1..]);
    }
  }

  /** A quotient is determined by the multiples around it. */
  lemma {:induction false} QuotientBounds(x: nat, p: positive, n: nat)
    ensures n * p <= x <==> n <= x / p
  {
    var q, r := x / p, x % p;
    assert x == q * p + r;
    if n <= q {
      assert n * p <= q * p;
    } else {
      assert (q + 1) * p <= n * p;
    }
  }
}
