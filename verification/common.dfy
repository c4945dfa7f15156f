/**
 * Shared vocabulary of the model: bytes, optional values, the error outcomes
 * of the Rust commands (`anyhow::bail!`, a panicking `unwrap`/index, an I/O
 * error), and the small string functions that the Rust and TypeScript
 * standard libraries provide (`starts_with`, `ends_with`, `trim_start`,
 * lexicographic `Ord` on strings, decimal formatting).
 */
module Common {

  /** One octet, as stored in files and zip entries. */
  type byte = x: int | 0 <= x < 256

  datatype Option<T> = None | Some(value: T)

  /** How a command of the application can fail. */
  datatype Error =
    | Bail(message: string)   // an `anyhow::bail!` or a `?` on a contextual error
    | Panic(message: string)  // an `unwrap` on `None` or an index on a missing key
    | Io(message: string)     // a failed read, write or lookup in a container

  datatype Result<T> = Ok(value: T) | Err(error: Error)

  predicate StartsWith(s: string, prefix: string) {
    |prefix| <= |s| && s[..|prefix|] == prefix
  }

  predicate EndsWith(s: string, suffix: string) {
    |suffix| <= |s| && s[|s| - |suffix|..] == suffix
  }

  /** Taking the last element off `a + b`, for a non-empty `b`, takes it off `b`. */
  lemma LastOfAppend<T>(a: seq<T>, b: seq<T>)
    requires b != []
    ensures (a + b)[..|a + b| - 1] == a + b[..|b| - 1]
    ensures (a + b)[|a + b| - 1] == b[|b| - 1]
  {
  }

  /**
   * Characters with the Unicode White_Space property: what Rust's
   * `str::trim_start` removes.
   */
  predicate IsUnicodeWhiteSpace(c: char) {
    var n := c as int;
    (0x09 <= n <= 0x0D) || n == 0x20 || n == 0x85 || n == 0xA0 || n == 0x1680
    || (0x2000 <= n <= 0x200A) || n == 0x2028 || n == 0x2029 || n == 0x202F
    || n == 0x205F || n == 0x3000
  }

  /** Rust's `str::trim_start`. */
  function TrimStart(s: string): (r: string)
    ensures |r| <= |s|
  {
    if s != [] && IsUnicodeWhiteSpace(s[0]) then TrimStart(s[1..]) else s
  }

  /** `trim_start` removes a run of white space from the front and nothing else. */
  lemma {:induction false} TrimStartShape(s: string)
    ensures var r := TrimStart(s);
      && r == s[|s| - |r|..]
      && (r == [] || !IsUnicodeWhiteSpace(r[0]))
      && (forall i :: 0 <= i < |s| - |r| ==> IsUnicodeWhiteSpace(s[i]))
    decreases |s|
  {
    if s != [] && IsUnicodeWhiteSpace(s[0]) {
      TrimStartShape(s[1..]);
      var r := TrimStart(s);
      assert s[1..][|s| - 1 - |r|..] == s[|s| - |r|..];
      forall i | 1 <= i < |s| - |r|
        ensures IsUnicodeWhiteSpace(s[i])
      {
        assert s[i] == s[1..][i - 1];
      }
    }
  }

  /** Strict lexicographic order on strings by code point: Rust's `Ord` for `str`. */
  predicate LexLess(a: string, b: string) {
    if a == [] then b != []
    else if b == [] then false
    else if a[0] != b[0] then a[0] < b[0]
    else LexLess(a[1..], b[1..])
  }

  lemma {:induction false} LexLessIrreflexive(a: string)
    ensures !LexLess(a, a)
  {
    if a != [] {
      LexLessIrreflexive(a[1..]);
    }
  }

  lemma {:induction false} LexLessTotal(a: string, b: string)
    ensures a == b || LexLess(a, b) || LexLess(b, a)
  {
    if a != [] && b != [] && a[0] == b[0] {
      LexLessTotal(a[1..], b[1..]);
      if a[1..] == b[1..] {
        assert a == [a[0]] + a[1..] && b == [b[0]] + b[1..];
      }
    }
  }

  lemma {:induction false} LexLessTransitive(a: string, b: string, c: string)
    requires LexLess(a, b) && LexLess(b, c)
    ensures LexLess(a, c)
  {
    if a != [] && b != [] && c != [] && a[0] == b[0] && b[0] == c[0] {
      LexLessTransitive(a[1..], b[1..], c[1..]);
    }
  }

  /** Decimal digits of a natural number, as Rust's `Display` for integers prints them. */
  function Decimal(n: nat): (r: string)
    ensures |r| >= 1
    ensures forall i :: 0 <= i < |r| ==> '0' <= r[i] <= '9'
  {
    if n < 10 then [('0' as int + n) as char] else Decimal(n / 10) + [('0' as int + n % 10) as char]
  }

  /**
   * Rust's `format!("{:<03}", n)`: the `0` flag makes integer padding
   * sign-aware zero padding and overrides the `<` alignment, so the number is
   * padded on the left with zeros up to three characters.
   */
  function ZeroPad3(n: nat): (r: string)
    ensures |r| == if |Decimal(n)| < 3 then 3 else |Decimal(n)|
  {
    var d := Decimal(n);
    if |d| >= 3 then d else seq(3 - |d|, _ => '0') + d
  }
}
