/**
 * Case-sensitive substring containment, the test the name and sport
 * searches apply to each record.
 */
module Text {

  /** `pattern` occurs in `text` starting at position `i`. */
  predicate OccursAt(pattern: string, text: string, i: nat) {
    i + |pattern| <= |text| && text[i..i + |pattern|] == pattern
  }

  /** An occurrence at `i + 1` in `text` is one at `i` in the tail of `text`, and back. */
  lemma OccursInTail(pattern: string, text: string, i: nat)
    requires text != []
    ensures OccursAt(pattern, text, i + 1) <==> OccursAt(pattern, text[1..], i)
  {
  }

  /**
   * Whether `text` contains `pattern` as a contiguous piece; the empty
   * pattern is contained in every text.
   */
  function Contains(text: string, pattern: string): (b: bool)
    ensures b <==> exists i: nat :: OccursAt(pattern, text, i)
    decreases |text|
  {
    if pattern <= text then
      assert OccursAt(pattern, text, 0);
      true
    else if text == [] then
      assert forall i: nat :: !OccursAt(pattern, text, i);
      false
    else
      NoPrefixShift(pattern, text);
      Contains(text[1..], pattern)
  }

  /** When `pattern` is not a prefix of `text`, it occurs in `text` iff it occurs in its tail. */
  lemma NoPrefixShift(pattern: string, text: string)
    requires text != [] && !(pattern <= text)
    ensures (exists i: nat :: OccursAt(pattern, text, i)) <==> (exists j: nat :: OccursAt(pattern, text[1..], j))
  {
    if i: nat :| OccursAt(pattern, text, i) {
      assert i != 0;
      OccursInTail(pattern, text, i - 1);
    }
    if j: nat :| OccursAt(pattern, text[1..], j) {
      OccursInTail(pattern, text, j);
    }
  }

  /** The examples of case-sensitive matching: "Banana" matches "ana"; "Ana" and "Anne" do not. */
  lemma CaseSensitiveExamples()
    ensures Contains("Banana", "ana")
    ensures !Contains("Ana", "ana")
    ensures !Contains("Anne", "ana")
  {
    assert OccursAt("ana", "Banana", 1);
    assert "Ana"[1..] == "na" && "na"[1..] == "a" && "a"[1..] == "";
    assert "Anne"[1..] == "nne" && "nne"[1..] == "ne" && "ne"[1..] == "e" && "e"[1..] == "";
    assert !Contains("", "ana");
    assert !Contains("a", "ana") && !Contains("e", "ana");
    assert !Contains("na", "ana") && !Contains("ne", "ana");
    assert "nne"[0] != "ana"[0] && !Contains("nne", "ana");
  }
}
