/**
 * The mobile `CustomTextInput` component: the checksum label shown next to
 * a seed, the upper-cased field label, the `isFocused` state and the
 * `onRef` callback at mount and unmount.
 */
module CustomTextInput {
  import opened JsStrings

  /** The length of a complete seed, in trytes. */
  const SeedLength: nat := 81

  /** A seed character: `A`-`Z` or `9`. */
  predicate IsTryte(c: char)
  {
    'A' <= c <= 'Z' || c == '9'
  }

  predicate IsTryteString(s: string)
  {
    forall i :: 0 <= i < |s| ==> IsTryte(s[i])
  }

  /** What `getChecksumValue` makes of a seed. */
  datatype SeedStatus = Empty | InvalidCharacters | TooShort | Complete | TooLong

  /**
   * The characters are checked before the length, so an invalid seed shorter
   * than 81 is reported as invalid, not as short.
   */
  function Classify(seed: string): (st: SeedStatus)
    ensures st == Empty <==> seed == []
    ensures st == InvalidCharacters <==> seed != [] && !IsTryteString(seed)
    ensures st == TooShort <==> seed != [] && IsTryteString(seed) && |seed| < SeedLength
    ensures st == Complete <==> IsTryteString(seed) && |seed| == SeedLength
    ensures st == TooLong <==> IsTryteString(seed) && |seed| > SeedLength
  {
    if seed == [] then Empty
    else if !IsTryteString(seed) then InvalidCharacters
    else if |seed| < SeedLength then TooShort
    else if |seed| == SeedLength then Complete
    else TooLong
  }

  /**
   * `getChecksumValue()`: `'...'` while there is no seed, `'!'` for a seed with
   * a character outside A-Z and 9, `'< 81'` for a valid seed that is too short,
   * and the seed's checksum for a complete one. The checksum itself is a
   * parameter. A valid seed longer than 81 keeps the initial `'...'`.
   */
  function ChecksumValue(seed: string, checksum: string -> string): (shown: string)
    ensures shown == "..." || shown == "!" || shown == "< 81" || shown == checksum(seed)
  {
    match Classify(seed)
    case Empty => "..."
    case InvalidCharacters => "!"
    case TooShort => "< 81"
    case Complete => checksum(seed)
    case TooLong => "..."
  }

  /** The invalid-character label wins over the length check: any non-empty seed with a
      bad character gets `'!'`, whatever its length. */
  lemma InvalidCharacterWinsOverLength(seed: string, checksum: string -> string, i: nat)
    requires i < |seed| && !IsTryte(seed[i])
    ensures ChecksumValue(seed, checksum) == "!"
  {
  }

  /** When checksums are three trytes, as IOTA seed checksums are, the label is the seed's
      checksum exactly when the seed is complete, and each fixed label names its case. */
  lemma LabelsTellCasesApart(seed: string, checksum: string -> string)
    requires forall s :: |checksum(s)| == 3 && IsTryteString(checksum(s))
    ensures ChecksumValue(seed, checksum) == checksum(seed) <==> Classify(seed) == Complete
    ensures ChecksumValue(seed, checksum) == "!" <==> Classify(seed) == InvalidCharacters
    ensures ChecksumValue(seed, checksum) == "< 81" <==> Classify(seed) == TooShort
    ensures ChecksumValue(seed, checksum) == "..." <==> Classify(seed) in {Empty, TooLong}
  {
    var c := checksum(seed);
    assert !IsTryte('.') && !IsTryte('!');
    assert IsTryte(c[0]);
    assert c != "!" && c != "< 81";
  }

  /** The four seeds of the component tests. */
  lemma ChecksumTestVectors(checksum: string -> string)
    ensures ChecksumValue("-!", checksum) == "!"
    ensures ChecksumValue(Repeat('A', 80), checksum) == "< 81"
    ensures ChecksumValue(Repeat('9', 81), checksum) == checksum(Repeat('9', 81))
    ensures ChecksumValue("", checksum) == "..."
  {
    assert !IsTryte('-');
    assert !IsTryteString("-!") by { assert !IsTryte("-!"[0]); }
  }

  /** `c.repeat(n)`. */
  function Repeat(c: char, n: nat): (s: string)
    ensures |s| == n && forall i :: 0 <= i < n ==> s[i] == c
  {
    seq(n, _ => c)
  }

  /** The text of the label: the `label` prop, upper-cased. */
  function LabelText(labelProp: string): (text: string)
    ensures |text| == |labelProp|
    ensures forall i :: 0 <= i < |labelProp| ==> text[i] == UpperChar(labelProp[i])
  {
    ToUpperCase(labelProp)
  }

  /** `'foo'` is shown as `'FOO'`. */
  lemma LabelTestVector()
    ensures LabelText("foo") == "FOO"
  {
    assert LabelText("foo") == [UpperChar('f'), UpperChar('o'), UpperChar('o')];
  }

  /** The parent's `onRef` prop, recording every value it is called with. */
  class RefCallback {
    var received: seq<TextInput?>

    constructor()
      ensures received == []
    {
      received := [];
    }

    method Call(instance: TextInput?)
      modifies this
      ensures received == old(received) + [instance]
    {
      received := received + [instance];
    }
  }

  /** A mounted `CustomTextInput` with its `isFocused` state. */
  class TextInput {
    /** The `onRef` prop, `null` when the parent gives none. */
    const onRef: RefCallback?
    /** The `label` prop. */
    const labelProp: string
    var isFocused: bool

    constructor(onRef: RefCallback?, labelProp: string)
      ensures this.onRef == onRef && this.labelProp == labelProp
      ensures !isFocused
    {
      this.onRef := onRef;
      this.labelProp := labelProp;
      isFocused := false;
    }

    /** `onFocus()`: `setState({ isFocused: true })`. */
    method OnFocus()
      modifies this
      ensures isFocused
    {
      isFocused := true;
    }

    /** `onBlur()`: `setState({ isFocused: false })`. */
    method OnBlur()
      modifies this
      ensures !isFocused
    {
      isFocused := false;
    }

    /** `componentDidMount()`: hands this instance to `onRef`, when given. */
    method ComponentDidMount()
      modifies onRef
      ensures onRef != null ==> onRef.received == old(onRef.received) + [this]
    {
      if onRef != null {
        onRef.Call(this);
      }
    }

    /** `componentWillUnmount()`: hands `null` to `onRef`, when given. */
    method ComponentWillUnmount()
      modifies onRef
      ensures onRef != null ==> onRef.received == old(onRef.received) + [null]
    {
      if onRef != null {
        onRef.Call(null);
      }
    }
  }

  /** A mount followed by an unmount calls `onRef` with the instance and then with `null`. */
  method MountThenUnmount() returns (input: TextInput, callback: RefCallback)
    ensures callback.received == [input, null]
    ensures !input.isFocused
  {
    callback := new RefCallback();
    input := new TextInput(callback, "foo");
    input.ComponentDidMount();
    input.ComponentWillUnmount();
  }

  /** Focusing sets `isFocused`, blurring clears it again. */
  method FocusThenBlur(input: TextInput) returns (focusedBetween: bool)
    modifies input
    ensures focusedBetween && !input.isFocused
  {
    input.OnFocus();
    focusedBetween := input.isFocused;
    input.OnBlur();
  }
}
