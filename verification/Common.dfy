/** Vocabulary shared by the layout engine and the printer. */
module Common {
  datatype Option<+T> = None | Some(value: T)

  type Byte = b: int | 0 <= b < 256

  /** Addresses are 64-bit; sums of addresses wrap around. */
  const ADDRESS_SPACE: nat := 0x1_0000_0000_0000_0000

  /** The remainder modulo the address space, by repeated subtraction or addition. */
  function Wrap(n: int): (r: nat)
    ensures r < ADDRESS_SPACE
    decreases if n < 0 then ADDRESS_SPACE - n else n
  {
    if n < 0 then Wrap(n + ADDRESS_SPACE)
    else if n < ADDRESS_SPACE then n
    else Wrap(n - ADDRESS_SPACE)
  }

  lemma {:induction false} WrapIsRemainder(n: int)
    ensures Wrap(n) == n % ADDRESS_SPACE
    decreases if n < 0 then ADDRESS_SPACE - n else n
  {
    if n < 0 {
      WrapIsRemainder(n + ADDRESS_SPACE);
    } else if n >= ADDRESS_SPACE {
      WrapIsRemainder(n - ADDRESS_SPACE);
    }
  }

  lemma {:induction false} WrapSum(a: nat, b: nat)
    ensures Wrap(Wrap(a) + b) == Wrap(a + b)
    decreases a
  {
    if a >= ADDRESS_SPACE {
      WrapSum(a - ADDRESS_SPACE, b);
    }
  }

  /** s without its element at position k. */
  function RemoveAt<T>(s: seq<T>, k: nat): (r: seq<T>)
    requires k < |s|
    ensures |r| == |s| - 1
    ensures forall i :: 0 <= i < k ==> r[i] == s[i]
    ensures forall i :: k <= i < |r| ==> r[i] == s[i + 1]
  {
    s[..k] + s[k + 1..]
  }

  /** The picked elements stand at these positions, which increase. */
  predicate PickedAt<T(==)>(all: seq<T>, picked: seq<T>, at: seq<nat>) {
    && |at| == |picked|
    && (forall i, k :: 0 <= i < k < |at| ==> at[i] < at[k])
    && (forall i :: 0 <= i < |at| ==> at[i] < |all| && picked[i] == all[at[i]])
  }

  lemma SplitAt<T>(s: seq<T>, n: nat)
    requires n < |s|
    ensures s[..n + 1] == s[..n] + [s[n]]
    ensures s == s[..n + 1] + s[n + 1..]
    ensures s == s[..n] + [s[n]] + s[n + 1..]
  {
  }

  lemma Append<T>(s: seq<T>, x: T, t: seq<T>)
    ensures s + ([x] + t) == s + [x] + t
  {
  }

  lemma Associate<T>(a: seq<T>, b: seq<T>, c: seq<T>)
    ensures (a + b) + c == a + (b + c)
  {
  }

  lemma Associate3<T>(a: seq<T>, b: seq<T>, c: seq<T>, d: seq<T>)
    ensures a + b + c + d == a + (b + (c + d))
  {
  }

  lemma Associate4<T>(a: seq<T>, b: seq<T>, c: seq<T>, d: seq<T>, e: seq<T>)
    ensures a + b + c + d + e == a + (b + (c + (d + e)))
  {
    Associate3(a + b, c, d, e);
    Associate(a, b, c + (d + e));
  }

  lemma Empty<T>(a: seq<T>)
    ensures [] + a == a && a + [] == a
  {
  }

  /** The first n parts, one after the other. */
  function Concat<T>(parts: seq<seq<T>>, n: nat): seq<T>
    requires n <= |parts|
  {
    if n == 0 then [] else Concat(parts, n - 1) + parts[n - 1]
  }

  lemma {:induction false} ConcatSplits<T>(parts: seq<seq<T>>, k: nat, n: nat) returns (rest: seq<T>)
    requires k < n <= |parts|
    ensures Concat(parts, n) == Concat(parts, k) + (parts[k] + rest)
  {
    if k + 1 == n {
      rest := [];
      Empty(parts[k]);
    } else {
      var r := ConcatSplits(parts, k, n - 1);
      rest := r + parts[n - 1];
      Associate3(Concat(parts, k), parts[k], r, parts[n - 1]);
      Associate(Concat(parts, k), parts[k] + r, parts[n - 1]);
      Associate(parts[k], r, parts[n - 1]);
    }
  }

  lemma {:induction false} PartInConcat<T>(parts: seq<seq<T>>, n: nat, k: nat, e: T)
    requires k < n <= |parts| && e in parts[k]
    ensures e in Concat(parts, n)
  {
    if k < n - 1 {
      PartInConcat(parts, n - 1, k, e);
    }
  }

  lemma {:induction false} FromConcat<T>(parts: seq<seq<T>>, n: nat, e: T) returns (k: nat)
    requires n <= |parts| && e in Concat(parts, n)
    ensures k < n && e in parts[k]
  {
    if e in parts[n - 1] {
      k := n - 1;
    } else {
      k := FromConcat(parts, n - 1, e);
    }
  }

  /** A sequence, then the first n parts. */
  function Extended<T>(was: seq<T>, parts: seq<seq<T>>, n: nat): seq<T>
    requires n <= |parts|
  {
    was + Concat(parts, n)
  }

  lemma ExtendedBy<T>(was: seq<T>, parts: seq<seq<T>>, n: nat, part: seq<T>)
    requires n < |parts| && parts[n] == part
    ensures Extended(was, parts, n) + part == Extended(was, parts, n + 1)
  {
    Associate(was, Concat(parts, n), part);
  }

  lemma ExtendedByNone<T>(was: seq<T>, parts: seq<seq<T>>)
    ensures Extended(was, parts, 0) == was
  {
  }

  type Identifier = nat

  /** A symbolic expression, identified by the symbols it mentions. */
  datatype SymExpr =
    | SymAddrConst(symbol: Identifier, addend: int)
    | SymAddrAddr(left: Identifier, right: Identifier)
}
