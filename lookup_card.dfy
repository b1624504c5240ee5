/**
 * app/components/LookupCard.tsx: the product lookup form. The component keeps the typed text
 * in React state (`lookupInput`); the input element's own value (`fieldValue`) is what the
 * user sees. Navigation is returned as the path navigated to.
 */
module LookupCard {
  import Strings

  /** The card's `type` prop. */
  datatype LookupType = Ean | ProductCode

  /** `handleSubmit`'s target: the product index for blank input, otherwise the lookup by EAN or by code. */
  function LookupUrl(input: string, kind: LookupType): (url: string)
    ensures Strings.IsBlank(input) ==> url == "/product"
    ensures !Strings.IsBlank(input) && kind == Ean ==> url == "/product/ean/" + Strings.Trim(input)
    ensures !Strings.IsBlank(input) && kind == ProductCode ==> url == "/product/" + Strings.Trim(input)
  {
    var trimmed := Strings.Trim(input);
    if trimmed == [] then "/product"
    else if kind == Ean then "/product/ean/" + trimmed
    else "/product/" + trimmed
  }

  /** The looked-up code is the last path segment of the target, whichever the kind. */
  lemma LookupUrlEndsWithCode(input: string, kind: LookupType)
    requires !Strings.IsBlank(input) && '/' !in Strings.Trim(input)
    ensures Strings.LastPiece(LookupUrl(input, kind), '/') == Strings.Trim(input)
  {
    var trimmed := Strings.Trim(input);
    if kind == Ean {
      assert "/product/ean/" + trimmed == "/product/ean" + "/" + trimmed;
      Strings.LastPieceAfterSeparator("/product/ean", trimmed, '/');
    } else {
      assert "/product/" + trimmed == "/product" + "/" + trimmed;
      Strings.LastPieceAfterSeparator("/product", trimmed, '/');
    }
  }

  /** The two values the card holds: the React state and the input element's value. */
  datatype CardState = CardState(lookupInput: string, fieldValue: string)

  /** The text in the state is the text the user sees. */
  predicate InSync(s: CardState) {
    s.lookupInput == s.fieldValue
  }

  /** Typing: the element shows the text and `onChange` stores it. */
  function Typed(text: string): (s: CardState)
    ensures InSync(s) && s.fieldValue == text
  {
    CardState(text, text)
  }

  /**
   * The state after `handleSubmit` as written: a lookup clears the element's value through
   * `resetInput`, but the React state keeps the old text.
   */
  function AfterSubmit(s: CardState): (t: CardState)
    ensures t.lookupInput == s.lookupInput
    ensures t.fieldValue == (if Strings.IsBlank(s.lookupInput) then s.fieldValue else [])
  {
    if Strings.Trim(s.lookupInput) == [] then s else CardState(s.lookupInput, [])
  }

  /**
   * As written, after a lookup the field is empty but submitting it again repeats the same
   * lookup instead of opening the product index, as an empty field does.
   */
  lemma StaleInputRepeatsLookup(code: string, kind: LookupType)
    requires !Strings.IsBlank(code)
    ensures AfterSubmit(Typed(code)).fieldValue == []
    ensures !InSync(AfterSubmit(Typed(code)))
    ensures LookupUrl(AfterSubmit(Typed(code)).lookupInput, kind) == LookupUrl(code, kind)
    ensures LookupUrl(AfterSubmit(Typed(code)).fieldValue, kind) == "/product" != LookupUrl(code, kind)
  {
    assert Strings.IsBlank([]);
    assert |LookupUrl(code, kind)| > |"/product"|;
  }

  /** `handleSubmit` as intended: a lookup clears both the element and the state. */
  function IntendedAfterSubmit(s: CardState): (t: CardState)
    ensures InSync(s) ==> InSync(t)
    ensures t.fieldValue == (if Strings.IsBlank(s.lookupInput) then s.fieldValue else [])
  {
    if Strings.Trim(s.lookupInput) == [] then s else CardState([], [])
  }

  /**
   * With the intended reset the card stays in sync, so every submit looks up exactly what the
   * field shows; after a lookup the next submit of the empty field opens the product index.
   */
  lemma IntendedSubmitLooksUpWhatIsShown(s: CardState, kind: LookupType)
    requires InSync(s)
    ensures InSync(IntendedAfterSubmit(s))
    ensures LookupUrl(IntendedAfterSubmit(s).lookupInput, kind) == LookupUrl(IntendedAfterSubmit(s).fieldValue, kind)
    ensures !Strings.IsBlank(s.fieldValue) ==> LookupUrl(IntendedAfterSubmit(s).lookupInput, kind) == "/product"
  {
    assert Strings.IsBlank([]);
  }

  /** The mounted card. */
  class Card {
    const kind: LookupType
    var lookupInput: string
    var fieldValue: string

    constructor (kind: LookupType)
      ensures this.kind == kind && lookupInput == [] && fieldValue == []
    {
      this.kind := kind;
      lookupInput := [];
      fieldValue := [];
    }

    /** The user types into the field. */
    method Type(text: string)
      modifies this
      ensures CardState(lookupInput, fieldValue) == Typed(text)
    {
      fieldValue := text;
      lookupInput := text;
    }

    /** `handleSubmit`, then `resetInput` after a lookup. */
    method HandleSubmit() returns (target: string)
      modifies this
      ensures target == LookupUrl(old(lookupInput), kind)
      ensures CardState(lookupInput, fieldValue) == AfterSubmit(old(CardState(lookupInput, fieldValue)))
    {
      var trimmedInput := Strings.Trim(lookupInput);
      if trimmedInput == [] {
        return "/product";
      }
      target := if kind == Ean then "/product/ean/" + trimmedInput else "/product/" + trimmedInput;
      fieldValue := [];
    }
  }
}
