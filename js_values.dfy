/** JavaScript values as the server and the page handle them: parsed JSON data plus
    `undefined`, with the truthiness, `||`, `??`, property access and `String.prototype.trim`
    rules that both sides of the application rely on. */
module JsValues {

  datatype Option<+T> = None | Some(value: T)

  datatype Result<+T, +E> = Ok(value: T) | Err(error: E)

  /** A JavaScript value. Numbers are integers (see README, "Left out"). */
  datatype JsValue =
    | Undefined
    | Null
    | Bool(b: bool)
    | Num(n: int)
    | Str(s: string)
    | Arr(elems: seq<JsValue>)
    | Obj(props: map<string, JsValue>)

  /** The TypeErrors the modelled expressions can raise. */
  datatype TypeError =
    | CannotReadProperty(key: string)  // `x.key` with `x` null or undefined
    | NotAFunction(name: string)       // `x.trim()` with `x` not a string

  /** ToBoolean: the falsy values are undefined, null, false, 0 and "". */
  predicate Truthy(v: JsValue)
  {
    match v
    case Undefined => false
    case Null => false
    case Bool(b) => b
    case Num(n) => n != 0
    case Str(s) => s != ""
    case Arr(_) => true
    case Obj(_) => true
  }

  /** The values `??` and `?.` treat as missing. */
  predicate Nullish(v: JsValue)
  {
    v.Undefined? || v.Null?
  }

  /** `a || b` */
  function Or(a: JsValue, b: JsValue): JsValue
  {
    if Truthy(a) then a else b
  }

  /** `a ?? b` */
  function Coalesce(a: JsValue, b: JsValue): JsValue
  {
    if Nullish(a) then b else a
  }

  /** `v?.key`: undefined when `v` is nullish or has no own property `key`. Inherited
      properties are not modelled: the program reads these keys on objects, where none of
      them is inherited. */
  function Prop(v: JsValue, key: string): JsValue
  {
    match v
    case Obj(m) => if key in m then m[key] else Undefined
    case _ => Undefined
  }

  /** `v.key`: a TypeError when `v` is null or undefined, otherwise `v?.key`. */
  function Get(v: JsValue, key: string): (r: Result<JsValue, TypeError>)
    ensures r.Err? <==> Nullish(v)
    ensures r.Ok? ==> r.value == Prop(v, key)
  {
    if Nullish(v) then Err(CannotReadProperty(key)) else Ok(Prop(v, key))
  }

  /** `a || b` and `a ?? b` differ exactly when `a` is falsy but present ("" , 0, false)
      and `b` is a different value. */
  lemma OrCoalesceDiffer(a: JsValue, b: JsValue)
    ensures Or(a, b) != Coalesce(a, b) <==> !Truthy(a) && !Nullish(a) && a != b
  {
  }

  /** The characters `String.prototype.trim` removes: WhiteSpace and LineTerminator of
      ECMA-262 (section 12.2 and 12.3 of the 2023 edition), with the Unicode Zs category
      written out. */
  const Whitespace: set<char> :=
    {'\t', '\n', '\U{000B}', '\U{000C}', '\r', ' ', '\U{00A0}', '\U{1680}',
     '\U{2000}', '\U{2001}', '\U{2002}', '\U{2003}', '\U{2004}', '\U{2005}',
     '\U{2006}', '\U{2007}', '\U{2008}', '\U{2009}', '\U{200A}', '\U{2028}',
     '\U{2029}', '\U{202F}', '\U{205F}', '\U{3000}', '\U{FEFF}'}

  predicate IsWhitespace(c: char)
  {
    c in Whitespace
  }

  /** Every character of `s` is whitespace (the empty string included). */
  predicate Blank(s: string)
  {
    forall i :: 0 <= i < |s| ==> IsWhitespace(s[i])
  }

  /** `s` with its leading whitespace removed. */
  function TrimStart(s: string): (r: string)
    ensures |r| <= |s| && r == s[|s| - |r|..]
    ensures Blank(s[..|s| - |r|])
    ensures r == [] || !IsWhitespace(r[0])
  {
    if s == [] || !IsWhitespace(s[0]) then s else TrimStart(s[1..])
  }

  /** `s` with its trailing whitespace removed. */
  function TrimEnd(s: string): (r: string)
    ensures |r| <= |s| && r == s[..|r|]
    ensures Blank(s[|r|..])
    ensures r == [] || !IsWhitespace(r[|r| - 1])
  {
    if s == [] || !IsWhitespace(s[|s| - 1]) then s else TrimEnd(s[..|s| - 1])
  }

  /** `s.trim()`: the result is empty exactly for blank strings, and otherwise begins and
      ends with a non-whitespace character. */
  function Trim(s: string): (r: string)
    ensures |r| <= |s|
    ensures r == [] <==> Blank(s)
    ensures r != [] ==> !IsWhitespace(r[0]) && !IsWhitespace(r[|r| - 1])
  {
    var u := TrimStart(s);
    assert u == [] ==> s == s[..|s| - |u|];
    TrimEnd(u)
  }

  /** `r` is the slice of `s` starting at `lo`, with only whitespace before and after it. */
  predicate BetweenBlanks(s: string, lo: nat, r: string)
  {
    lo + |r| <= |s| && r == s[lo..lo + |r|] && Blank(s[..lo]) && Blank(s[lo + |r|..])
  }

  /** What `s.trim()` removes is whitespace at either end: the result is the slice of `s`
      between its leading and its trailing whitespace. */
  lemma {:induction false} TrimIsSlice(s: string)
    ensures BetweenBlanks(s, |s| - |TrimStart(s)|, Trim(s))
  {
    var u := TrimStart(s);
    var r := Trim(s);
    assert r == TrimEnd(u);
    assert BetweenBlanks(s, |s| - |u|, r) by {
      PrefixOfSuffix(s, u, r, |s| - |u|);
    }
  }

  /** A prefix `r` of the suffix `u == s[lo..]`, with whitespace only before `u` and after
      `r`, lies between blanks in `s`. */
  lemma PrefixOfSuffix(s: string, u: string, r: string, lo: nat)
    requires lo <= |s| && u == s[lo..] && Blank(s[..lo])
    requires |r| <= |u| && r == u[..|r|] && Blank(u[|r|..])
    ensures BetweenBlanks(s, lo, r)
  {
    assert s[lo + |r|..] == u[|r|..];
  }

  /** Trimming twice is trimming once. */
  lemma {:induction false} TrimIdempotent(s: string)
    ensures Trim(Trim(s)) == Trim(s)
  {
    var r := Trim(s);
    assert TrimStart(r) == r;
    assert TrimEnd(r) == r;
  }
}
