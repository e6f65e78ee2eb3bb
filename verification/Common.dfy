/** Small shared vocabulary: an optional value, Python's "x or default" on optional text, and shortened text. */
module Common {

  datatype Option<+T> = None | Some(value: T)

  /** Python's `x or default` where x is text that may be missing: both None and "" fall through. */
  function OrElse(x: Option<string>, default: string): string {
    if x.Some? && x.value != "" then x.value else default
  }

  /** Python's `text[:500]`, the longest text kept from a device or a message. */
  function Shortened(text: string): (part: string)
    ensures part <= text && |part| <= 500 && (part != text ==> |part| == 500)
  {
    if |text| > 500 then text[..500] else text
  }

  /** The part is what is left of the text from `i` to `j` once the characters to drop are taken off both ends. */
  ghost predicate IsMiddle(text: string, part: string, drops: char -> bool, i: nat, j: nat)
    requires i <= j <= |text|
  {
    && part == text[i..j] && (part != "" ==> !drops(part[0]) && !drops(part[|part| - 1]))
    && (forall k :: 0 <= k < i ==> drops(text[k])) && (forall k :: j <= k < |text| ==> drops(text[k]))
  }

  /** The part is the text without the leading and trailing characters that are to be dropped. */
  ghost predicate Trims(text: string, part: string, drops: char -> bool) {
    exists i, j {:trigger IsMiddle(text, part, drops, i, j)} :: 0 <= i <= j <= |text| && IsMiddle(text, part, drops, i, j)
  }

  /** There is only one such part. */
  lemma TrimsOnce(text: string, part: string, other: string, drops: char -> bool)
    requires Trims(text, part, drops) && Trims(text, other, drops)
    ensures part == other
  {
    var i, j :| 0 <= i <= j <= |text| && IsMiddle(text, part, drops, i, j);
    var k, l :| 0 <= k <= l <= |text| && IsMiddle(text, other, drops, k, l);
    assert part != "" ==> part[0] == text[i] && part[|part| - 1] == text[j - 1];
    assert other != "" ==> other[0] == text[k] && other[|other| - 1] == text[l - 1];
  }

  lemma TrimsAlike(text: string, part: string, drops: char -> bool, others: char -> bool)
    requires Trims(text, part, drops) && forall c :: drops(c) == others(c)
    ensures Trims(text, part, others)
  {
    var i, j :| 0 <= i <= j <= |text| && IsMiddle(text, part, drops, i, j);
    assert IsMiddle(text, part, others, i, j);
  }

  lemma TrimsFirst(text: string, part: string, drops: char -> bool)
    requires text != "" && drops(text[0]) && Trims(text[1..], part, drops)
    ensures Trims(text, part, drops)
  {
    var rest := text[1..];
    var i, j :| 0 <= i <= j <= |rest| && IsMiddle(rest, part, drops, i, j);
    assert forall k :: 0 < k < |text| ==> text[k] == rest[k - 1];
    assert rest[i..j] == text[i + 1..j + 1];
    assert IsMiddle(text, part, drops, i + 1, j + 1);
  }

  lemma TrimsLast(text: string, part: string, drops: char -> bool)
    requires text != "" && drops(text[|text| - 1]) && Trims(text[..|text| - 1], part, drops)
    ensures Trims(text, part, drops)
  {
    var init := text[..|text| - 1];
    var i, j :| 0 <= i <= j <= |init| && IsMiddle(init, part, drops, i, j);
    assert init[i..j] == text[i..j];
    assert IsMiddle(text, part, drops, i, j);
  }

  lemma TrimsNothing(text: string, drops: char -> bool)
    requires text != "" ==> !drops(text[0]) && !drops(text[|text| - 1])
    ensures Trims(text, text, drops)
  {
    assert IsMiddle(text, text, drops, 0, |text|);
  }

  lemma Rejoined<T>(x: seq<T>, y: seq<T>, z: seq<T>)
    ensures x + y + z == x + (y + z)
  {
  }
}
