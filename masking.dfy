/**
 * The identity mask (`marites`): questions about who built the tutor are
 * answered with a fixed attribution instead of going to the model.
 */
module Masking {
  import opened Wrappers
  import opened Text

  /** The seven trigger phrases, all lower-case. */
  const Keywords: seq<string> := [
    "who created", "who made you", "developer", "programmer",
    "who built you", "creator", "who coded"
  ]

  /** The fixed attribution reply. */
  const Attribution: string :=
    "I was created by a group of PTK students \U{1F338} This project was built for the Open House."

  /** Some phrase of `phrases` occurs in `text` (`any(k in text for k in phrases)`). */
  function AnyOccurs(phrases: seq<string>, text: string): (b: bool)
    ensures b <==> exists i :: 0 <= i < |phrases| && IsSubstring(phrases[i], text)
    decreases |phrases|
  {
    if |phrases| == 0 then
      false
    else if Contains(phrases[0], text) then
      true
    else
      var rest := AnyOccurs(phrases[1..], text);
      assert forall i :: 1 <= i < |phrases| ==> phrases[i] == phrases[1..][i - 1];
      rest
  }

  /** `marites(text)`: the attribution when a trigger phrase occurs in the
      lower-cased text, `None` otherwise. */
  function Marites(text: string): (r: Option<string>)
    ensures r.Some? <==> exists i :: 0 <= i < |Keywords| && IsSubstring(Keywords[i], Lower(text))
    ensures r == None || r == Some(Attribution)
  {
    if AnyOccurs(Keywords, Lower(text)) then Some(Attribution) else None
  }

  /** The mask does not depend on letter case: a message and its lower-case
      form are masked alike. */
  lemma MaritesIgnoresCase(text: string)
    ensures Marites(text) == Marites(Lower(text))
  {
    LowerIsLower(text);
  }

  /** A message that contains a trigger phrase verbatim, anywhere and in any
      surrounding text, is masked. */
  lemma MaritesFiresOnKeyword(text: string, i: nat)
    requires i < |Keywords|
    requires IsSubstring(Keywords[i], text)
    ensures Marites(text) == Some(Attribution)
  {
    LowerKeepsSubstring(Keywords[i], text);
    KeywordIsLower(i);
  }

  /** Every trigger phrase is already lower-case. */
  lemma KeywordIsLower(i: nat)
    requires i < |Keywords|
    ensures Lower(Keywords[i]) == Keywords[i]
  {
    assert IsLower(Keywords[i]);
    LowerIsLower(Keywords[i]);
  }

  /** The same holds when the phrase is written with capitals: "Who Made You?"
      is masked. */
  lemma MaritesExample()
    ensures Marites("Who Made You?") == Some(Attribution)
  {
    var t := "Who Made You?";
    assert Lower(t)[0..12] == Keywords[1];
    assert OccursAt(Keywords[1], Lower(t), 0);
  }

  /** Every trigger phrase has at least seven characters, so a shorter message
      is never masked. */
  lemma MaritesIgnoresShortText(text: string)
    requires |text| < 7
    ensures Marites(text) == None
  {
    forall i | 0 <= i < |Keywords| ensures !IsSubstring(Keywords[i], Lower(text)) {
      assert |Keywords[i]| >= 7;
    }
  }
}
