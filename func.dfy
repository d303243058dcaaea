/**
 * The server's parameter helpers: the two query-value transforms (string list and
 * integer list) and the selection of the first validation message.
 */
module Func {
  import opened Maybe
  import opened JsRuntime

  /** The values a transform sees in `param.value` and writes into `param.obj`. */
  datatype JsValue =
    | Null
    | Undefined
    | Text(s: string)
    | Texts(items: seq<string>)
    | Ints(nums: seq<ParsedInt>)

  predicate IsArray(v: JsValue) {
    v.Texts? || v.Ints?
  }

  /** `Array.isArray(v)` ... `.length` */
  function Length(v: JsValue): nat {
    match v
    case Texts(items) => |items|
    case Ints(nums) => |nums|
    case _ => 0
  }

  /** Every piece, trimmed. */
  function TrimAll(pieces: seq<string>): (r: seq<string>)
    ensures |r| == |pieces|
    ensures forall i :: 0 <= i < |r| ==> r[i] == Trim(pieces[i])
  {
    seq(|pieces|, i requires 0 <= i < |pieces| => Trim(pieces[i]))
  }

  /**
   * The list both transforms derive from a raw value: nothing for null, undefined and
   * "", an array as it is, a comma-separated string split on ',' with every piece
   * trimmed, and any other string as a one-element list, untrimmed.
   */
  function ListOf(v: JsValue): (r: Option<JsValue>)
    ensures r.None? <==> v.Null? || v.Undefined? || v == Text("")
    ensures IsArray(v) ==> r == Some(v)
    ensures v.Text? && v.s != "" && ',' !in v.s ==> r == Some(Texts([v.s]))
    ensures v.Text? && ',' in v.s ==>
              && r.Some? && r.value.Texts?
              && |r.value.items| == |Split(v.s, ',')| >= 2
              && forall i :: 0 <= i < |r.value.items| ==>
                   IsTrimmed(r.value.items[i]) && ',' !in r.value.items[i]
    ensures v.Text? && ',' in v.s ==> r == Some(Texts(TrimAll(Split(v.s, ','))))
  {
    if v.Null? || v.Undefined? || v == Text("") then None
    else if IsArray(v) then Some(v)
    else if ',' in v.s then
      var pieces := Split(v.s, ',');
      SplitPiecesAvoidSeparator(v.s, ',');
      SplitHasTwoPieces(v.s, ',');
      Some(Texts(TrimAll(pieces)))
    else Some(Texts([v.s]))
  }

  /** A string with the separator in it splits into at least two pieces. */
  lemma {:induction false} SplitHasTwoPieces(s: string, sep: char)
    requires sep in s
    ensures |Split(s, sep)| >= 2
  {
    if s[0] != sep {
      SplitHasTwoPieces(s[1..], sep);
    }
  }

  /** When no piece of a comma-separated string has whitespace around it, joining the
      derived list with ',' gives the string back. */
  lemma CommaListRoundTrip(s: string)
    requires ',' in s
    requires forall i :: 0 <= i < |Split(s, ',')| ==> IsTrimmed(Split(s, ',')[i])
    ensures ListOf(Text(s)) == Some(Texts(Split(s, ',')))
    ensures Join(ListOf(Text(s)).value.items, ',') == s
  {
    assert TrimAll(Split(s, ',')) == Split(s, ',');
    JoinSplit(s, ',');
  }

  /** Comma-free pieces joined with ',' (spaces around them allowed) are read back as
      the pieces, each trimmed: "apple, banana" gives "apple" and "banana". */
  lemma CommaListOfPieces(pieces: seq<string>)
    requires |pieces| >= 2
    requires forall i :: 0 <= i < |pieces| ==> ',' !in pieces[i]
    ensures ListOf(Text(Join(pieces, ','))) == Some(Texts(TrimAll(pieces)))
  {
    var s := Join(pieces, ',');
    assert s == pieces[0] + [','] + Join(pieces[1..], ',');
    assert s[|pieces[0]|] == ',';
    SplitJoin(pieces, ',');
  }

  /** `parseInt` applied to each element of a list, NaN kept in place. */
  function ParseEach(items: seq<string>, rt: Runtime): (r: seq<ParsedInt>)
    ensures |r| == |items|
    ensures forall i :: 0 <= i < |r| ==> r[i] == rt.parseInt(items[i])
  {
    seq(|items|, i requires 0 <= i < |items| => rt.parseInt(items[i]))
  }

  /**
   * The integer list: the same derivation, then `parseInt` on every element (an
   * element that is already a number is turned back into text first). An element that
   * does not parse stays as NaN, so the list keeps its length and positions.
   */
  function IntListOf(v: JsValue, rt: Runtime): (r: Option<JsValue>)
    ensures r.None? <==> ListOf(v).None?
    ensures r.Some? ==> r.value.Ints? && |r.value.nums| == Length(ListOf(v).value)
    ensures r.Some? && ListOf(v).value.Texts? ==>
              forall i :: 0 <= i < |r.value.nums| ==>
                r.value.nums[i] == rt.parseInt(ListOf(v).value.items[i])
  {
    match ListOf(v)
    case None => None
    case Some(list) =>
      match list
      case Ints(nums) =>
        var texts := seq(|nums|, i requires 0 <= i < |nums| => ParsedIntToString(nums[i], rt));
        Some(Ints(ParseEach(texts, rt)))
      case Texts(items) => Some(Ints(ParseEach(items, rt)))
      case _ => Some(Ints([]))
  }

  /** The argument class-transformer hands to a transform. */
  class TransformFnParams {
    var value: JsValue
    var obj: map<string, JsValue>
    const key: string

    constructor (value: JsValue, key: string, obj: map<string, JsValue>)
      ensures this.value == value && this.key == key && this.obj == obj
    {
      this.value := value;
      this.key := key;
      this.obj := obj;
    }
  }

  /** `transformStringToStringArray`: derive the list and, when there is one, write it
      into both `param.obj[param.key]` and `param.value`. */
  method TransformStringToStringArray(param: TransformFnParams) returns (r: Option<JsValue>)
    modifies param
    ensures r == ListOf(old(param.value))
    ensures r.Some? ==> param.value == r.value && param.obj == old(param.obj)[param.key := r.value]
    ensures r.None? ==> param.value == old(param.value) && param.obj == old(param.obj)
  {
    r := ListOf(param.value);
    if r.Some? {
      param.obj := param.obj[param.key := r.value];
      param.value := r.value;
    }
  }

  /** `transformStringToIntArray`: the integer list, written back the same way. */
  method TransformStringToIntArray(param: TransformFnParams, rt: Runtime) returns (r: Option<JsValue>)
    modifies param
    ensures r == IntListOf(old(param.value), rt)
    ensures r.Some? ==> param.value == r.value && param.obj == old(param.obj)[param.key := r.value]
    ensures r.None? ==> param.value == old(param.value) && param.obj == old(param.obj)
  {
    r := IntListOf(param.value, rt);
    if r.Some? {
      param.obj := param.obj[param.key := r.value];
      param.value := r.value;
    }
  }

  // ---------------------------------------------------------------------------
  // validateDto

  /** One failed rule: its name and its message. */
  datatype Constraint = Constraint(name: string, message: string)

  /** One entry of the validator's result: the property and the rules it failed
      (absent when the error carries no constraints of its own). */
  datatype ValidationError = ValidationError(property: string, constraints: Option<seq<Constraint>>)

  /** What `validateDto` resolves to: nothing, the first message with the whole result,
      or a thrown TypeError. */
  datatype ValidateOutcome =
    | Passed
    | Failed(firstErrorMessage: string, validationResult: seq<ValidationError>)
    | Threw(error: string)

  const DefaultMessage := "Validation error."

  /** The TypeError raised when the first error has an empty constraints object. */
  const ReadEntryOfUndefined := "Cannot read properties of undefined (reading '1')"

  /**
   * `validateDto`, given the validator's result: nothing when there are no errors;
   * otherwise the first constraint message of the first error (the default message when
   * that error has no constraints) together with the full result. An empty constraints
   * object on the first error makes the entry lookup throw.
   */
  function ValidateDto(result: seq<ValidationError>): (r: ValidateOutcome)
    ensures r.Passed? <==> result == []
    ensures r.Threw? <==> result != [] && result[0].constraints == Some([])
    ensures r.Failed? ==> r.validationResult == result
    ensures r.Failed? && result[0].constraints.Some? ==>
              r.firstErrorMessage == result[0].constraints.value[0].message
    ensures r.Failed? && result[0].constraints.None? ==> r.firstErrorMessage == DefaultMessage
  {
    if result == [] then Passed
    else match result[0].constraints
      case None => Failed(DefaultMessage, result)
      case Some(cs) =>
        if cs == [] then Threw(ReadEntryOfUndefined) else Failed(cs[0].message, result)
  }
}
