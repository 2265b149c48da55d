/**
 The few pieces of JavaScript semantics the product routes depend on:
 the shape of a parsed JSON body field, JavaScript truthiness (`!x`),
 the `typeof x === 'number'` test, and `String.prototype.trim`.
 */
module JsValues {

  /** One field of a parsed request body, as the route sees it after
      destructuring `req.body`. `Absent` is `undefined`; `Composite` is a
      JSON object or array. Numbers are modelled as integers. */
  datatype Field =
    | Absent
    | Null
    | Bool(b: bool)
    | Str(s: string)
    | Num(n: int)
    | Composite

  /** JavaScript truthiness: `!f` is false exactly for these values. */
  predicate Truthy(f: Field)
  {
    match f
    case Absent => false
    case Null => false
    case Bool(b) => b
    case Str(s) => s != ""
    case Num(n) => n != 0
    case Composite => true
  }

  /** `typeof f === 'number' && f > 0`, the price check of every route. */
  predicate IsPositiveNumber(f: Field)
  {
    f.Num? && f.n > 0
  }

  /** A positive number is always truthy, so the required-field check on a
      price never rejects what the positivity check would accept. */
  lemma PositiveIsTruthy(f: Field)
    ensures IsPositiveNumber(f) ==> Truthy(f)
  {
  }

  /** The characters `trim` removes: ECMAScript's WhiteSpace (tab, vertical
      tab, form feed, the byte order mark and every space separator) and its
      LineTerminator characters. */
  predicate IsJsSpace(c: char)
  {
    || c == '\t' || c == '\n' || c == '\U{000B}' || c == '\U{000C}' || c == '\r'
    || c == ' ' || c == '\U{00A0}' || c == '\U{1680}'
    || ('\U{2000}' <= c <= '\U{200A}')
    || c == '\U{2028}' || c == '\U{2029}' || c == '\U{202F}' || c == '\U{205F}'
    || c == '\U{3000}' || c == '\U{FEFF}'
  }

  /** The end of the run of whitespace that starts at position `i`: the
      first position at or after `i` that is not whitespace, or `|s|`. */
  function SpaceRunEnd(s: string, i: nat): (r: nat)
    requires i <= |s|
    ensures i <= r <= |s|
    ensures forall k :: i <= k < r ==> IsJsSpace(s[k])
    ensures r < |s| ==> !IsJsSpace(s[r])
    decreases |s| - i
  {
    if i < |s| && IsJsSpace(s[i]) then SpaceRunEnd(s, i + 1) else i
  }

  /** The start of the run of whitespace that ends at position `j`, going
      back no further than `lo`: everything from the result up to `j` is
      whitespace, and the character just before the result is not. */
  function SpaceRunStart(s: string, lo: nat, j: nat): (r: nat)
    requires lo <= j <= |s|
    ensures lo <= r <= j
    ensures forall k :: r <= k < j ==> IsJsSpace(s[k])
    ensures lo < r ==> !IsJsSpace(s[r - 1])
    decreases j
  {
    if lo < j && IsJsSpace(s[j - 1]) then SpaceRunStart(s, lo, j - 1) else j
  }

  /** `String.prototype.trim`: the part of `s` between its leading and its
      trailing whitespace. */
  function Trim(s: string): string
  {
    var i := SpaceRunEnd(s, 0);
    s[i..SpaceRunStart(s, i, |s|)]
  }

  /** What `trim` promises: the result is the contiguous middle `s[i..j]` of
      the input, everything cut off on either side is whitespace, and the
      result neither starts nor ends with whitespace. */
  lemma TrimIsStrippedMiddle(s: string)
    ensures var r := Trim(s);
      exists i, j {:trigger s[i..j]} :: 0 <= i <= j <= |s| && r == s[i..j]
        && (forall k :: 0 <= k < i ==> IsJsSpace(s[k]))
        && (forall k :: j <= k < |s| ==> IsJsSpace(s[k]))
    ensures var r := Trim(s); r != [] ==> !IsJsSpace(r[0]) && !IsJsSpace(r[|r| - 1])
  {
    var i := SpaceRunEnd(s, 0);
    var j := SpaceRunStart(s, i, |s|);
    var r := s[i..j];
    if r != [] {
      assert r[0] == s[i] && r[|r| - 1] == s[j - 1];
    }
  }

  /** `s` has no whitespace at either end. */
  predicate IsTrimmed(s: string)
  {
    s != [] ==> !IsJsSpace(s[0]) && !IsJsSpace(s[|s| - 1])
  }

  /** `trim` always returns a trimmed string, and the trimmed strings are
      exactly the ones `trim` leaves as they are. */
  lemma TrimmedMeansFixed(s: string)
    ensures IsTrimmed(Trim(s))
    ensures IsTrimmed(s) <==> Trim(s) == s
  {
    TrimIsStrippedMiddle(s);
    if IsTrimmed(s) {
      NoEdgeSpaceTrimIsIdentity(s);
    }
  }

  /** Trimming twice is trimming once: a stored name is already trimmed. */
  lemma TrimIdempotent(s: string)
    ensures Trim(Trim(s)) == Trim(s)
  {
    var r := Trim(s);
    TrimIsStrippedMiddle(s);
    NoEdgeSpaceTrimIsIdentity(r);
  }

  /** A string without whitespace at either end is left as it is. */
  lemma NoEdgeSpaceTrimIsIdentity(s: string)
    requires s != [] ==> !IsJsSpace(s[0]) && !IsJsSpace(s[|s| - 1])
    ensures Trim(s) == s
  {
    assert SpaceRunEnd(s, 0) == 0;
    assert SpaceRunStart(s, 0, |s|) == |s|;
  }

  /** A string made only of whitespace trims to the empty string; this is why
      a stored name can be empty although the create route demanded a truthy
      one. */
  lemma AllSpaceTrimsToEmpty(s: string)
    requires forall k :: 0 <= k < |s| ==> IsJsSpace(s[k])
    ensures Trim(s) == ""
  {
    assert SpaceRunEnd(s, 0) == |s|;
  }
}
