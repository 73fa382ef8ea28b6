/**
 * The value pretty-printer used by the timeline's value column.  The
 * host's number formatting (`string.format('%.2f')`, the default number to
 * string conversion) and the host's conversion of a Color3 are not
 * modelled: they are passed in as functions.
 */
module PrettyStringify {
  import opened Values

  /** The host conversions the printer relies on. */
  datatype Formatters = Formatters(
    /** `roundNumToString`: two decimals. */
    fmt2: real -> string,
    /** The default conversion of a number inside a template string. */
    numToString: real -> string,
    /** The default conversion of a Color3 inside a template string. */
    color3ToString: (real, real, real) -> string)

  /** `typeOf`: the host's type name of a value. */
  function TypeOf(v: KeyframeValue): string {
    match v
    case Number(_) => "number"
    case Boolean(_) => "boolean"
    case Str(_) => "string"
    case UDim2Value(_, _) => "UDim2"
    case UDimValue(_) => "UDim"
    case Vector2Value(_, _) => "Vector2"
    case Color3Value(_, _, _) => "Color3"
  }

  function Upper(c: char): char {
    if 'a' <= c <= 'z' then (c as int - 32) as char else c
  }

  function Lower(c: char): char {
    if 'A' <= c <= 'Z' then (c as int + 32) as char else c
  }

  function LowerAll(s: string): (r: string)
    ensures |r| == |s|
  {
    if s == [] then [] else [Lower(s[0])] + LowerAll(s[1..])
  }

  /** Lower-casing text that has no upper-case letter changes nothing. */
  lemma {:induction false} LowerAllKeepsLower(s: string)
    requires forall i :: 0 <= i < |s| ==> 'a' <= s[i] <= 'z'
    ensures LowerAll(s) == s
  {
    if s != [] {
      LowerAllKeepsLower(s[1..]);
      assert s == [s[0]] + s[1..];
    }
  }

  /** The first character upper-cased, the rest lower-cased. */
  function Capitalize(s: string): string {
    if s == [] then [] else [Upper(s[0])] + LowerAll(s[1..])
  }

  /** The type name as printed: capitalised for booleans, unchanged otherwise. */
  function TypeString(v: KeyframeValue): (r: string)
    ensures v.Boolean? ==> r == "Boolean"
    ensures !v.Boolean? ==> r == TypeOf(v)
  {
    var dataType := TypeOf(v);
    if dataType == "boolean" then
      LowerAllKeepsLower(dataType[1..]);
      Capitalize(dataType)
    else dataType
  }

  /** The default template conversion `${data}` of the values reaching the default branch. */
  function DefaultToString(v: KeyframeValue, f: Formatters): string {
    match v
    case Boolean(b) => if b then "true" else "false"
    case Str(s) => s
    case Color3Value(r, g, bl) => f.color3ToString(r, g, bl)
    case Number(n) => f.numToString(n)
    case UDim2Value(_, _) => ""
    case UDimValue(_) => ""
    case Vector2Value(_, _) => ""
  }

  /** The printer: a type tag, then the fields in parentheses. */
  function Pretty(v: KeyframeValue, f: Formatters): (r: string)
    ensures |r| > |Tag(v)| + 1 && r[..|Tag(v)| + 1] == Tag(v) + "(" && r[|r| - 1] == ')'
  {
    match v
    case Number(n) => "Number(" + f.fmt2(n) + ")"
    case Vector2Value(x, y) =>
      var text := "Vector2(" + f.fmt2(x) + ", " + f.fmt2(y) + ")";
      assert text == "Vector2(" + (f.fmt2(x) + ", " + f.fmt2(y) + ")");
      text
    case UDimValue(u) =>
      var text := "UDim(" + f.fmt2(u.scale) + ", " + f.numToString(u.offset) + ")";
      assert text == "UDim(" + (f.fmt2(u.scale) + ", " + f.numToString(u.offset) + ")");
      text
    case UDim2Value(x, y) =>
      var text := "UDim2(" + f.fmt2(x.scale) + ", " + f.numToString(x.offset) + ", "
                  + f.fmt2(y.scale) + ", " + f.numToString(y.offset) + ")";
      assert text == "UDim2(" + (f.fmt2(x.scale) + ", " + f.numToString(x.offset) + ", "
                                 + f.fmt2(y.scale) + ", " + f.numToString(y.offset) + ")");
      text
    case _ => TypeString(v) + "(" + DefaultToString(v, f) + ")"
  }

  /** The tag a printed value starts with. */
  function Tag(v: KeyframeValue): string {
    match v
    case Number(_) => "Number"
    case Boolean(_) => "Boolean"
    case Str(_) => "string"
    case UDim2Value(_, _) => "UDim2"
    case UDimValue(_) => "UDim"
    case Vector2Value(_, _) => "Vector2"
    case Color3Value(_, _, _) => "Color3"
  }

  /** The text in front of the first opening parenthesis. */
  function TagOf(s: string): (r: string)
    ensures |r| <= |s|
  {
    if s == [] || s[0] == '(' then [] else [s[0]] + TagOf(s[1..])
  }

  /** A tag without parentheses is read back from the front of the text. */
  lemma {:induction false} TagOfPrefix(tag: string, rest: string)
    requires '(' !in tag
    ensures TagOf(tag + "(" + rest) == tag
  {
    if tag != [] {
      assert (tag + "(" + rest)[0] == tag[0];
      assert (tag + "(" + rest)[1..] == tag[1..] + "(" + rest;
      TagOfPrefix(tag[1..], rest);
    } else {
      assert tag + "(" + rest == "(" + rest;
    }
  }

  /** What the printer writes between the parentheses. */
  function Fields(v: KeyframeValue, f: Formatters): string {
    match v
    case Number(n) => f.fmt2(n)
    case Vector2Value(x, y) => f.fmt2(x) + ", " + f.fmt2(y)
    case UDimValue(u) => f.fmt2(u.scale) + ", " + f.numToString(u.offset)
    case UDim2Value(x, y) =>
      f.fmt2(x.scale) + ", " + f.numToString(x.offset) + ", " + f.fmt2(y.scale) + ", " + f.numToString(y.offset)
    case _ => DefaultToString(v, f)
  }

  /** A printed value splits into its tag, the fields and the parentheses around them. */
  lemma PrettyParts(v: KeyframeValue, f: Formatters)
    ensures Pretty(v, f) == Tag(v) + "(" + Fields(v, f) + ")"
  {
    if v.Boolean? || v.Str? || v.Color3Value? {
      DefaultParts(v, f);
    } else {
      NumericParts(v, f);
    }
  }

  /** The values printed through the default branch. */
  lemma DefaultParts(v: KeyframeValue, f: Formatters)
    requires v.Boolean? || v.Str? || v.Color3Value?
    ensures Pretty(v, f) == Tag(v) + "(" + Fields(v, f) + ")"
  {
    assert TypeString(v) == Tag(v);
  }

  /** The values printed field by field. */
  lemma NumericParts(v: KeyframeValue, f: Formatters)
    requires !(v.Boolean? || v.Str? || v.Color3Value?)
    ensures Pretty(v, f) == Tag(v) + "(" + Fields(v, f) + ")"
  {
    OpeningLiterals();
    var inner := Fields(v, f);
    match v
    case Number(n) =>
      assert Pretty(v, f) == "Number(" + inner + ")";
      OpenParen("Number", "Number(", inner + ")");
    case Vector2Value(x, y) =>
      assert Pretty(v, f) == "Vector2(" + f.fmt2(x) + ", " + f.fmt2(y) + ")";
      assert inner == f.fmt2(x) + ", " + f.fmt2(y);
      Regroup3("Vector2(", f.fmt2(x), ", ", f.fmt2(y), ")");
      OpenParen("Vector2", "Vector2(", inner + ")");
    case UDimValue(u) =>
      assert Pretty(v, f) == "UDim(" + f.fmt2(u.scale) + ", " + f.numToString(u.offset) + ")";
      assert inner == f.fmt2(u.scale) + ", " + f.numToString(u.offset);
      Regroup3("UDim(", f.fmt2(u.scale), ", ", f.numToString(u.offset), ")");
      OpenParen("UDim", "UDim(", inner + ")");
    case UDim2Value(x, y) =>
      assert Pretty(v, f) == "UDim2(" + f.fmt2(x.scale) + ", " + f.numToString(x.offset) + ", "
                             + f.fmt2(y.scale) + ", " + f.numToString(y.offset) + ")";
      Regroup("UDim2(", f.fmt2(x.scale), ", ", f.numToString(x.offset), ", ", f.fmt2(y.scale), ", ", f.numToString(y.offset), ")");
      OpenParen("UDim2", "UDim2(", inner + ")");
  }

  /** Moves the parentheses of a nine-part concatenation around its middle seven parts. */
  lemma Regroup<T>(p: seq<T>, x1: seq<T>, x2: seq<T>, x3: seq<T>, x4: seq<T>, x5: seq<T>, x6: seq<T>, x7: seq<T>, q: seq<T>)
    ensures p + x1 + x2 + x3 + x4 + x5 + x6 + x7 + q == p + ((x1 + x2 + x3 + x4 + x5 + x6 + x7) + q)
  {
  }

  /** Moves the parentheses of a five-part concatenation around its middle three parts. */
  lemma Regroup3<T>(p: seq<T>, x1: seq<T>, x2: seq<T>, x3: seq<T>, q: seq<T>)
    ensures p + x1 + x2 + x3 + q == p + ((x1 + x2 + x3) + q)
  {
  }

  /** The printer's opening literals are the tags followed by a parenthesis. */
  lemma OpeningLiterals()
    ensures "Number(" == "Number" + "(" && "Vector2(" == "Vector2" + "("
    ensures "UDim(" == "UDim" + "(" && "UDim2(" == "UDim2" + "("
  {
  }

  /** Reassociates a literal ending in an opening parenthesis. */
  lemma OpenParen(tag: string, withParen: string, rest: string)
    requires withParen == tag + "("
    ensures withParen + rest == tag + "(" + rest
  {
  }

  /** A tag in front of a parenthesised text is read back, and the text is bracketed. */
  lemma TaggedText(tag: string, fields: string)
    requires '(' !in tag
    ensures var r := tag + "(" + fields + ")";
            |r| > |tag| + 1 && r[..|tag|] == tag && r[|tag|] == '(' && r[|r| - 1] == ')'
            && TagOf(r) == tag
  {
    var r := tag + "(" + fields + ")";
    assert r == tag + "(" + (fields + ")");
    TagOfPrefix(tag, fields + ")");
  }

  /**
   * Every printed value is its tag, an opening parenthesis, the fields and
   * a closing parenthesis, and the tag can be read back: values of
   * different types never print alike.
   */
  lemma PrettyIsTagged(v: KeyframeValue, f: Formatters)
    ensures var r := Pretty(v, f);
            |r| > |Tag(v)| + 1 && r[..|Tag(v)|] == Tag(v) && r[|Tag(v)|] == '(' && r[|r| - 1] == ')'
            && TagOf(r) == Tag(v)
  {
    var tag := Tag(v);
    var fields := Fields(v, f);
    PrettyParts(v, f);
    NoParenInTag(v);
    TaggedText(tag, fields);
  }

  /** No tag holds an opening parenthesis. */
  lemma NoParenInTag(v: KeyframeValue)
    ensures '(' !in Tag(v)
  {
    var tag := Tag(v);
    forall i | 0 <= i < |tag|
      ensures tag[i] != '('
    {
      assert 'A' <= tag[i] <= 'z' || '0' <= tag[i] <= '9';
    }
  }

  /** Values of different types print with different tags. */
  lemma TagsDistinguishTypes(v: KeyframeValue, w: KeyframeValue, f: Formatters, g: Formatters)
    requires TypeOf(v) != TypeOf(w)
    ensures TagOf(Pretty(v, f)) != TagOf(Pretty(w, g))
  {
    PrettyIsTagged(v, f);
    PrettyIsTagged(w, g);
    if Tag(v) == Tag(w) {
      TagIdentifiesType(v, w);
    }
  }

  /** The tags are told apart by their length and first letter, so equal tags mean equal types. */
  lemma TagIdentifiesType(v: KeyframeValue, w: KeyframeValue)
    requires |Tag(v)| == |Tag(w)| && Tag(v)[0] == Tag(w)[0]
    ensures TypeOf(v) == TypeOf(w)
  {
  }
}
