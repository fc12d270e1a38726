/** Small shared vocabulary: optional values, results of service calls, text helpers. */
module Common {

  datatype Option<+T> = None | Some(value: T) {
    function GetOr(default: T): T {
      match this
      case Some(v) => v
      case None => default
    }
  }

  /** A service function either yields a new state or throws, leaving the state alone. */
  datatype Result<+T, +E> = Ok(value: T) | Err(error: E)

  function After<T, E>(before: T, r: Result<T, E>): T {
    match r
    case Ok(after) => after
    case Err(_) => before
  }

  function ErrorOf<T, E>(r: Result<T, E>): Option<E> {
    match r
    case Ok(_) => None
    case Err(e) => Some(e)
  }

  /** The white space that JavaScript's `trim` removes. */
  predicate IsSpace(c: char) {
    || '\t' <= c <= '\r' || c == ' ' || c == '\U{00A0}' || c == '\U{1680}'
    || '\U{2000}' <= c <= '\U{200A}' || c == '\U{2028}' || c == '\U{2029}'
    || c == '\U{202F}' || c == '\U{205F}' || c == '\U{3000}' || c == '\U{FEFF}'
  }

  function TrimStart(s: string): string {
    if s != [] && IsSpace(s[0]) then TrimStart(s[1..]) else s
  }

  function TrimEnd(s: string): string {
    if s != [] && IsSpace(s[|s| - 1]) then TrimEnd(s[..|s| - 1]) else s
  }

  function Trim(s: string): string {
    TrimEnd(TrimStart(s))
  }

  /** Some character is not white space. */
  predicate Written(s: string) {
    exists i :: 0 <= i < |s| && !IsSpace(s[i])
  }

  /** `t` is `s` without the white space around it. */
  predicate TrimmedTo(s: string, t: string) {
    exists a, b :: 0 <= a <= b <= |s| && t == s[a..b] && TrimmedBetween(s, a, b)
  }

  predicate TrimmedBetween(s: string, a: nat, b: nat) {
    && a <= b <= |s|
    && (forall i :: 0 <= i < a ==> IsSpace(s[i])) && (forall i :: b <= i < |s| ==> IsSpace(s[i]))
    && (a < b ==> !IsSpace(s[a]) && !IsSpace(s[b - 1]))
  }

  lemma {:induction false} TrimStartCuts(s: string) returns (a: nat)
    ensures a <= |s| && TrimStart(s) == s[a..] && (forall i :: 0 <= i < a ==> IsSpace(s[i])) && (a < |s| ==> !IsSpace(s[a]))
    decreases |s|
  {
    a := 0;
    if s != [] && IsSpace(s[0]) {
      var k := TrimStartCuts(s[1..]);
      a := k + 1;
    }
  }

  lemma {:induction false} TrimEndCuts(s: string) returns (b: nat)
    ensures b <= |s| && TrimEnd(s) == s[..b] && (forall i :: b <= i < |s| ==> IsSpace(s[i])) && (b > 0 ==> !IsSpace(s[b - 1]))
    decreases |s|
  {
    b := |s|;
    if s != [] && IsSpace(s[|s| - 1]) {
      b := TrimEndCuts(s[..|s| - 1]);
      assert s[..|s| - 1][..b] == s[..b];
    }
  }

  /** Trimming takes the white space off both ends and nothing else; what remains is empty exactly if there was nothing else. */
  lemma TrimExactly(s: string)
    ensures TrimmedTo(s, Trim(s)) && (Trim(s) != "" <==> Written(s))
  {
    var a := TrimStartCuts(s);
    var t := s[a..];
    var b := TrimEndCuts(t);
    assert t[..b] == s[a..a + b];
    forall i | a + b <= i < |s| ensures IsSpace(s[i]) { assert s[i] == t[i - a]; }
    assert b > 0 ==> s[a + b - 1] == t[b - 1];
    if b > 0 {
      assert a < |s|;
      assert TrimmedBetween(s, a, a + b);
    } else {
      assert TrimmedBetween(s, a, a);
    }
  }

  /** Text input is trimmed and must keep between 1 and `max` characters. */
  function Parsed(raw: string, max: nat): Option<string> {
    var t := Trim(raw);
    if 1 <= |t| <= max then Some(t) else None
  }

  /** Input of at most `max` characters, once trimmed, that is not blank. */
  predicate Accepts(raw: string, max: nat, t: string) {
    TrimmedTo(raw, t) && 1 <= |t| <= max
  }

  lemma TrimmedOnce(s: string, t: string, u: string)
    requires TrimmedTo(s, t) && TrimmedTo(s, u)
    ensures t == u
  {
    var a: nat, b: nat :| a <= b <= |s| && t == s[a..b] && TrimmedBetween(s, a, b);
    var c: nat, d: nat :| c <= d <= |s| && u == s[c..d] && TrimmedBetween(s, c, d);
    if a < b { assert !IsSpace(s[a]) && !IsSpace(s[b - 1]); }
    if c < d { assert !IsSpace(s[c]) && !IsSpace(s[d - 1]); }
  }

  lemma ParsedExactly(raw: string, max: nat, t: string)
    ensures Parsed(raw, max) == Some(t) <==> Accepts(raw, max, t)
  {
    TrimExactly(raw);
    if TrimmedTo(raw, t) { TrimmedOnce(raw, t, Trim(raw)); }
  }

  /** Optional input replaces the old value by its trimmed text, or leaves it. */
  predicate Took(raw: Option<string>, max: nat, was: string, now: string) {
    if raw.Some? then Accepts(raw.value, max, now) else now == was
  }

  predicate AllAccepted(raw: Option<string>, max: nat) {
    raw.Some? ==> Written(raw.value) && |Trim(raw.value)| <= max
  }

  lemma AcceptedIsParsed(raw: Option<string>, max: nat)
    ensures AllAccepted(raw, max) <==> !(raw.Some? && Parsed(raw.value, max).None?)
  {
    if raw.Some? { TrimExactly(raw.value); }
  }

  function Min(a: int, b: int): int { if a < b then a else b }
  function Max(a: int, b: int): int { if a < b then b else a }
  function Abs(a: int): int { if a < 0 then -a else a }
  function AbsR(a: real): real { if a < 0.0 then -a else a }

  /** How many of the first `n` numbers satisfy `p`. */
  function CountIf(n: nat, p: nat -> bool): nat {
    if n == 0 then 0 else CountIf(n - 1, p) + if p(n - 1) then 1 else 0
  }

  function Satisfying(n: nat, p: nat -> bool): set<nat> {
    set i: nat | i < n && p(i)
  }

  lemma {:induction false} CountIfIsSize(n: nat, p: nat -> bool)
    ensures CountIf(n, p) == |Satisfying(n, p)|
    decreases n
  {
    if n > 0 {
      CountIfIsSize(n - 1, p);
      assert Satisfying(n, p) == Satisfying(n - 1, p) + if p(n - 1) then {n - 1} else {};
    }
  }
}
