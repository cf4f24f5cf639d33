/** Document ids: the ObjectId strings a request may carry and the form the store keeps. */
module ObjectIds {
  import opened JsValues

  /** A document id: an ObjectId in its lower-case hexadecimal form. */
  type Id = string

  /** `ObjectId.isValid` for a string: 24 hexadecimal digits. */
  predicate IsObjectId(s: string) {
    |s| == 24 && forall k :: 0 <= k < |s| ==> IsHex(s[k])
  }

  /** The form in which the store holds an id. */
  predicate IsCanonicalId(s: string) {
    IsObjectId(s) && forall k :: 0 <= k < |s| ==> !('A' <= s[k] <= 'Z')
  }

  /** The id a well-formed request id denotes: hexadecimal case does not matter. */
  function CanonicalId(s: string): (r: Id)
    requires IsObjectId(s)
    ensures IsCanonicalId(r)
    ensures IsCanonicalId(s) ==> r == s
  {
    var r := Lower(s);
    assert forall k :: 0 <= k < |s| ==> r[k] == LowerChar(s[k]);
    r
  }
}
