/** Tracked installations (data/tracking.kt): a user is known by an opaque hash, and two
    tracked users are the same exactly when their hashes are. */
module Tracking {
  import opened Text

  /** `TrackedUser`: the row id, the installation's hash and the last version it reported. */
  datatype TrackedUser = TrackedUser(id: int, hash: string, version: string)

  /** The argument of `equals(other: Any?)`. */
  datatype AnyRef = NullRef | TrackedRef(user: TrackedUser) | OtherRef

  /** `TrackedUser.equals`: another tracked user with the same hash. */
  predicate Equals(u: TrackedUser, other: AnyRef) {
    other.TrackedRef? && other.user.hash == u.hash
  }

  /** Equality is decided by the hash alone: the id and the version play no part. */
  lemma EqualsIffSameHash(u: TrackedUser, v: TrackedUser, w: TrackedUser)
    ensures Equals(u, TrackedRef(v)) <==> u.hash == v.hash
    ensures v.hash == w.hash ==> (Equals(u, TrackedRef(v)) <==> Equals(u, TrackedRef(w)))
    ensures !Equals(u, NullRef) && !Equals(u, OtherRef)
  {
  }

  /** Equality is reflexive, symmetric and transitive. */
  lemma EqualsIsEquivalence(a: TrackedUser, b: TrackedUser, c: TrackedUser)
    ensures Equals(a, TrackedRef(a))
    ensures Equals(a, TrackedRef(b)) ==> Equals(b, TrackedRef(a))
    ensures Equals(a, TrackedRef(b)) && Equals(b, TrackedRef(c)) ==> Equals(a, TrackedRef(c))
  {
  }

  // ---------------------------------------------------------------- String.hashCode

  const TWO_32: int := 0x1_0000_0000

  /** A 32-bit `Int` result of arithmetic that overflowed: the value modulo 2^32, signed. */
  function Wrap32(x: int): (r: int)
    ensures InInt32(r)
    ensures x - r == TWO_32 * ((x - INT_MIN) / TWO_32)
  {
    (x - INT_MIN) % TWO_32 + INT_MIN
  }

  /** The UTF-16 code units the JVM stores for one character: one below U+10000, else a
      surrogate pair. */
  function CodeUnits(c: char): (us: seq<int>)
    ensures 1 <= |us| <= 2 && forall i :: 0 <= i < |us| ==> 0 <= us[i] < 0x1_0000
  {
    if (c as int) < 0x1_0000 then [c as int]
    else [0xD800 + (c as int - 0x1_0000) / 0x400, 0xDC00 + (c as int - 0x1_0000) % 0x400]
  }

  function Utf16(s: string): seq<int>
  {
    if s == [] then [] else CodeUnits(s[0]) + Utf16(s[1..])
  }

  /** `String.hashCode()`'s loop `h = 31 * h + c` over the code units, in 32-bit arithmetic. */
  function HashOfUnits(us: seq<int>): (h: int)
    ensures InInt32(h)
  {
    if us == [] then 0 else Wrap32(31 * HashOfUnits(us[..|us| - 1]) + us[|us| - 1])
  }

  /** The polynomial the loop evaluates: u0*31^(n-1) + ... + u(n-1), in exact arithmetic. */
  function Polynomial(us: seq<int>): int
  {
    if us == [] then 0 else 31 * Polynomial(us[..|us| - 1]) + us[|us| - 1]
  }

  /** The 32-bit loop and the exact polynomial differ by a multiple of 2^32. */
  lemma {:induction false} LoopCongruent(us: seq<int>) returns (q: int)
    ensures Polynomial(us) - HashOfUnits(us) == TWO_32 * q
  {
    if us == [] {
      q := 0;
    } else {
      var init := us[..|us| - 1];
      var last := us[|us| - 1];
      var q0 := LoopCongruent(init);
      var x := 31 * HashOfUnits(init) + last;
      var k := (x - INT_MIN) / TWO_32;
      q := 31 * q0 + k;
    }
  }

  /** Two 32-bit values that differ by a multiple of 2^32 are equal. */
  lemma SameInt32(a: int, b: int, q: int)
    requires InInt32(a) && InInt32(b) && a - b == TWO_32 * q
    ensures a == b
  {
  }

  /** Overflow in the middle of the loop does not matter: `hashCode` is the polynomial
      evaluated exactly and then wrapped to 32 bits once. */
  lemma HashIsWrappedPolynomial(us: seq<int>)
    ensures HashOfUnits(us) == Wrap32(Polynomial(us))
  {
    var q := LoopCongruent(us);
    var p := Polynomial(us);
    var k := (p - INT_MIN) / TWO_32;
    SameInt32(Wrap32(p), HashOfUnits(us), q - k);
  }

  /** `TrackedUser.hashCode()`: the hash string's `hashCode`. */
  function HashCode(u: TrackedUser): int {
    HashOfUnits(Utf16(u.hash))
  }

  /** `equals` and `hashCode` agree: equal tracked users have equal hash codes. */
  lemma EqualUsersHashAlike(u: TrackedUser, v: TrackedUser)
    requires Equals(u, TrackedRef(v))
    ensures HashCode(u) == HashCode(v)
    ensures InInt32(HashCode(u))
  {
  }
}
