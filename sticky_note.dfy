/** `truncateText` (js/components/StickyNote.js:28-31). */
module StickyNote {
  import opened JsText

  const Ellipsis: string := "..."

  /**
   * A text of at most `maxLength` characters is kept; a longer one is cut to
   * its first `maxLength` characters followed by `"..."`. `substr` treats a
   * negative length as zero, so a negative `maxLength` leaves only `"..."`.
   */
  function TruncateText(text: string, maxLength: int): (r: string)
    ensures |text| <= maxLength ==> r == text
    ensures |text| > maxLength ==>
      && |r| == Max(maxLength, 0) + 3
      && r[..|r| - 3] == text[..|r| - 3]
      && r[|r| - 3..] == Ellipsis
  {
    if |text| <= maxLength then text else text[..Max(maxLength, 0)] + Ellipsis
  }

  /** The result is never longer than `maxLength + 3`, nor than `"..."` when `maxLength` is negative. */
  lemma TruncateTextBound(text: string, maxLength: int)
    ensures |TruncateText(text, maxLength)| <= Max(maxLength, 0) + 3
  {
  }

  /** Truncating twice with the same limit is truncating once. */
  lemma TruncateTextIdempotent(text: string, maxLength: int)
    ensures TruncateText(TruncateText(text, maxLength), maxLength) == TruncateText(text, maxLength)
  {
    var r := TruncateText(text, maxLength);
    if |text| > maxLength {
      var m := Max(maxLength, 0);
      assert r == text[..m] + Ellipsis;
      assert r[..m] == text[..m];
    }
  }
}
