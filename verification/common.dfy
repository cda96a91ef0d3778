/**
 * Shared vocabulary of the model: the optional value used for every
 * nullable field of the C# and TypeScript sources, the scalar types the
 * entities are built from, and the small string operations (ASCII case
 * folding, prefix and substring tests, white-space trimming) that several
 * components use.
 */
module Common {

  /** A nullable value: `None` stands for C#/TypeScript `null`. */
  datatype Option<+T> = None | Some(value: T) {

    /** The value, or `default` when absent (C#'s `??`). */
    function GetOr(default: T): T {
      match this
      case Some(v) => v
      case None => default
    }
  }

  /** A point in time; only equality and copying matter to the model. */
  type DateTime = int

  /** A C# `decimal`; amounts are only copied and compared. */
  type Decimal = real

  /** A byte of an uploaded image. */
  newtype Byte = b: int | 0 <= b < 256

  predicate IsUpperAscii(c: char) {
    'A' <= c <= 'Z'
  }

  /** Lower-cases one ASCII letter and leaves every other character alone. */
  function LowerChar(c: char): (r: char)
    ensures IsUpperAscii(c) ==> r as int == c as int + 32
    ensures !IsUpperAscii(c) ==> r == c
    ensures !IsUpperAscii(r)
  {
    if IsUpperAscii(c) then (c as int + 32) as char else c
  }

  /** `ToLowerInvariant` / `toLowerCase`, restricted to ASCII letters. */
  function Lower(s: string): (r: string)
    ensures |r| == |s|
    ensures forall i :: 0 <= i < |s| ==> r[i] == LowerChar(s[i])
  {
    seq(|s|, i requires 0 <= i < |s| => LowerChar(s[i]))
  }

  /** Lower-casing twice is lower-casing once. */
  lemma LowerIdempotent(s: string)
    ensures Lower(Lower(s)) == Lower(s)
  {
  }

  predicate StartsWith(s: string, prefix: string) {
    |prefix| <= |s| && s[..|prefix|] == prefix
  }

  /** `sub` occurs in `s` starting at index `i`. */
  predicate OccursAt(s: string, sub: string, i: nat) {
    i + |sub| <= |s| && s[i..i + |sub|] == sub
  }

  /** JavaScript's `String.prototype.includes`: the empty string occurs everywhere. */
  predicate Contains(s: string, sub: string) {
    exists i: nat | i <= |s| :: OccursAt(s, sub, i)
  }

  lemma EmptyOccursEverywhere(s: string)
    ensures Contains(s, "")
  {
    assert OccursAt(s, "", 0);
  }

  /** `char.IsWhiteSpace`, restricted to the ASCII and Latin-1 white-space characters. */
  predicate IsWhiteSpace(c: char) {
    c == ' ' || c == '\t' || c == '\n' || c == '\r' || c == '\U{000B}' || c == '\U{000C}'
    || c == '\U{0085}' || c == '\U{00A0}'
  }

  function TrimStart(s: string): (r: string)
    ensures |r| <= |s| && r == s[|s| - |r|..]
    ensures forall i :: 0 <= i < |s| - |r| ==> IsWhiteSpace(s[i])
    ensures |r| > 0 ==> !IsWhiteSpace(r[0])
  {
    if |s| > 0 && IsWhiteSpace(s[0]) then TrimStart(s[1..]) else s
  }

  function TrimEnd(s: string): (r: string)
    ensures |r| <= |s| && r == s[..|r|]
    ensures forall i :: |r| <= i < |s| ==> IsWhiteSpace(s[i])
    ensures |r| > 0 ==> !IsWhiteSpace(r[|r| - 1])
  {
    if |s| > 0 && IsWhiteSpace(s[|s| - 1]) then TrimEnd(s[..|s| - 1]) else s
  }

  /** `string.Trim()`: the text without leading and trailing white space. */
  function Trim(s: string): (r: string)
    ensures exists i: nat :: OccursAt(s, r, i)
    ensures |r| > 0 ==> !IsWhiteSpace(r[0]) && !IsWhiteSpace(r[|r| - 1])
  {
    var t := TrimStart(s);
    var r := TrimEnd(t);
    assert OccursAt(s, r, |s| - |t|);
    r
  }

  predicate AllWhiteSpace(s: string) {
    forall i :: 0 <= i < |s| ==> IsWhiteSpace(s[i])
  }

  lemma {:induction false} TrimStartDropsPrefix(pad: string, s: string)
    requires AllWhiteSpace(pad)
    requires |s| > 0 ==> !IsWhiteSpace(s[0])
    ensures TrimStart(pad + s) == s
    decreases |pad|
  {
    if |pad| == 0 {
      assert pad + s == s;
    } else {
      assert (pad + s)[1..] == pad[1..] + s;
      TrimStartDropsPrefix(pad[1..], s);
    }
  }

  lemma {:induction false} TrimEndDropsSuffix(s: string, pad: string)
    requires AllWhiteSpace(pad)
    requires |s| > 0 ==> !IsWhiteSpace(s[|s| - 1])
    ensures TrimEnd(s + pad) == s
    decreases |pad|
  {
    if |pad| == 0 {
      assert s + pad == s;
    } else {
      var shorter := pad[..|pad| - 1];
      assert (s + pad)[..|s + pad| - 1] == s + shorter;
      TrimEndDropsSuffix(s, shorter);
    }
  }

  /** Trimming removes exactly the white-space padding around a body that does not itself start or end with white space. */
  lemma TrimDropsPadding(before: string, body: string, after: string)
    requires AllWhiteSpace(before) && AllWhiteSpace(after)
    requires |body| > 0 ==> !IsWhiteSpace(body[0]) && !IsWhiteSpace(body[|body| - 1])
    ensures Trim(before + body + after) == body
  {
    assert before + body + after == before + (body + after);
    if |body| > 0 {
      TrimStartDropsPrefix(before, body + after);
      TrimEndDropsSuffix(body, after);
    } else {
      assert body + after == after;
      assert AllWhiteSpace(before + after);
      TrimStartDropsPrefix(before + after, "");
      assert before + after == (before + after) + "";
      TrimEndDropsSuffix("", "");
    }
  }

  /** Trimming twice is trimming once. */
  lemma TrimIdempotent(s: string)
    ensures Trim(Trim(s)) == Trim(s)
  {
    var r := Trim(s);
    if |r| > 0 {
      assert TrimStart(r) == r;
      assert TrimEnd(r) == r;
    }
  }
}
