/** JSON values as the parser delivers them, and the Python text rules the forward code relies on. */
module JsonValues {

  /** `Foreign` is a Python object that is no JSON value (only direct core callers can pass one). */
  datatype Json =
    | Null
    | Bool(b: bool)
    | Int(i: int)
    | Float(x: real)
    | Str(s: string)
    | Arr(items: seq<Json>)
    | Obj(fields: map<string, Json>)
    | Foreign

  type Fields = map<string, Json>

  /** `d.get(key)` */
  function Get(fields: Fields, key: string): Json {
    if key in fields then fields[key] else Null
  }

  /** The truth value Python gives it. */
  predicate Truthy(j: Json) {
    match j
    case Null => false
    case Bool(b) => b
    case Int(i) => i != 0
    case Float(x) => x != 0.0
    case Str(s) => s != ""
    case Arr(items) => items != []
    case Obj(fields) => fields != map[]
    case Foreign => true
  }

  /** `str.isspace`, the class of `\s` and of `str.strip`. */
  predicate IsSpace(c: char) {
    var n := c as int;
    9 <= n <= 13 || 28 <= n <= 32 || n == 0x85 || n == 0xA0 || n == 0x1680 || 0x2000 <= n <= 0x200A
    || n == 0x2028 || n == 0x2029 || n == 0x202F || n == 0x205F || n == 0x3000
  }

  function LStrip(s: string): string {
    if s != "" && IsSpace(s[0]) then LStrip(s[1..]) else s
  }

  function RStrip(s: string): string {
    if s != "" && IsSpace(s[|s| - 1]) then RStrip(s[..|s| - 1]) else s
  }

  function Strip(s: string): string {
    RStrip(LStrip(s))
  }

  /** The characters Python takes for whitespace, one by one. */
  lemma SpacesAre(c: char)
    ensures IsSpace(c) <==>
      c as int in {9, 10, 11, 12, 13, 28, 29, 30, 31, 32, 133, 160, 5760, 8192, 8193, 8194, 8195, 8196, 8197, 8198,
                   8199, 8200, 8201, 8202, 8232, 8233, 8239, 8287, 12288}
  {
  }

  /** Nothing to strip at either end. */
  predicate Trimmed(s: string) {
    s == "" || (!IsSpace(s[0]) && !IsSpace(s[|s| - 1]))
  }

  lemma {:induction false} RStripTrims(s: string)
    ensures RStrip(s) <= s
    ensures RStrip(s) != "" ==> !IsSpace(RStrip(s)[|RStrip(s)| - 1])
    ensures Trimmed(s) ==> RStrip(s) == s
  {
    if s != "" && IsSpace(s[|s| - 1]) { RStripTrims(s[..|s| - 1]); }
  }

  lemma {:induction false} LStripTrims(s: string)
    ensures LStrip(s) == "" || !IsSpace(LStrip(s)[0])
    ensures Trimmed(s) ==> LStrip(s) == s
  {
    if s != "" && IsSpace(s[0]) { LStripTrims(s[1..]); }
  }

  /** `strip` removes exactly what can be removed: its result is trimmed, and a trimmed string
      is its own result. */
  lemma StripTrims(s: string)
    ensures Trimmed(Strip(s))
    ensures Strip(s) == s <==> Trimmed(s)
  {
    LStripTrims(s);
    RStripTrims(LStrip(s));
    RStripTrims(s);
  }

  /** `x` is `s` from `i` to `j`, and what is cut off is whitespace. */
  ghost predicate CutsAt(s: string, x: string, i: int, j: int) {
    && 0 <= i <= j <= |s| && s[i..j] == x
    && (forall k | 0 <= k < i :: IsSpace(s[k]))
    && (forall k | j <= k < |s| :: IsSpace(s[k]))
  }

  /** `x` is `s` without the whitespace around it. */
  ghost predicate StripsTo(s: string, x: string) {
    Trimmed(x) && exists i, j :: CutsAt(s, x, i, j)
  }

  lemma {:induction false} LStripDrops(s: string) returns (i: nat)
    ensures i <= |s| && LStrip(s) == s[i..] && forall k | 0 <= k < i :: IsSpace(s[k])
  {
    if s != "" && IsSpace(s[0]) {
      i := LStripDrops(s[1..]);
      assert forall k | 0 <= k < i :: s[1..][k] == s[k + 1];
      assert s[1..][i..] == s[i + 1..];
      i := i + 1;
    } else {
      i := 0;
    }
  }

  lemma {:induction false} RStripDrops(s: string) returns (j: nat)
    ensures j <= |s| && RStrip(s) == s[..j] && forall k | j <= k < |s| :: IsSpace(s[k])
  {
    if s != "" && IsSpace(s[|s| - 1]) {
      j := RStripDrops(s[..|s| - 1]);
      assert forall k | j <= k < |s| - 1 :: s[..|s| - 1][k] == s[k];
    } else {
      j := |s|;
    }
  }

  /** `strip` cuts whitespace off both ends, and nothing else gives a trimmed text. */
  lemma StripCuts(s: string, x: string)
    ensures StripsTo(s, x) <==> x == Strip(s)
  {
    StripTrims(s);
    var i := LStripDrops(s);
    var j := RStripDrops(s[i..]);
    assert Strip(s) == s[i..i + j];
    assert forall k | j <= k < |s| - i :: s[i..][k] == s[i + k];
    forall k | i + j <= k < |s| ensures IsSpace(s[k]) {
      assert s[i..][k - i] == s[k];
    }
    assert CutsAt(s, Strip(s), i, i + j);
    if StripsTo(s, x) { CutOnce(s, x, Strip(s)); }
  }

  lemma CutOnce(s: string, x: string, y: string)
    requires StripsTo(s, x) && StripsTo(s, y)
    ensures x == y
  {
    var i, j :| CutsAt(s, x, i, j);
    var a, b :| CutsAt(s, y, a, b);
    if x != "" { CutWithin(s, x, i, j, y, a, b); }
    if y != "" { CutWithin(s, y, a, b, x, i, j); }
  }

  lemma CutWithin(s: string, x: string, i: int, j: int, y: string, a: int, b: int)
    requires CutsAt(s, x, i, j) && CutsAt(s, y, a, b) && Trimmed(x) && x != ""
    ensures a <= i < j <= b
  {
    assert x[0] == s[i] && x[|x| - 1] == s[j - 1];
  }

  /** The values Python takes for false. */
  lemma FalsyAre(j: Json)
    ensures !Truthy(j) <==> j in {Null, Bool(false), Int(0), Float(0.0), Str(""), Arr([]), Obj(map[])}
  {
  }
}
