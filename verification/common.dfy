/** Shared value types: nullable values, pass/fail checks, results, and Java's
    rendering of a possibly-null string inside a string concatenation. */
module Common {

  /** A Java reference that may be null. */
  datatype Option<+T> = None | Some(value: T)

  /** Outcome of a check that either passes or fails with an error. */
  datatype Check<+E> = Pass | Fail(error: E)

  /** What string concatenation in Java renders for a possibly-null string. */
  function Show(s: Option<string>): (r: string)
    ensures s.Some? ==> r == s.value
    ensures s.None? ==> r == "null"
  {
    match s
    case None => "null"
    case Some(v) => v
  }

  /** `text` contains `part` starting at index `i`. */
  predicate OccursAt(text: string, part: string, i: nat)
  {
    i + |part| <= |text| && text[i..i + |part|] == part
  }

  /** `text` contains `part` as a contiguous piece. */
  predicate Mentions(text: string, part: string)
  {
    exists i: nat | i <= |text| :: OccursAt(text, part, i)
  }

  /** Whatever is concatenated around a string, the result still mentions it. */
  lemma MentionsInfix(pre: string, part: string, post: string)
    ensures Mentions(pre + part + post, part)
  {
    var text := pre + part + post;
    assert text[|pre|..|pre| + |part|] == part;
    assert OccursAt(text, part, |pre|);
  }

  /** Text added after a mention keeps it. */
  lemma MentionsAppend(text: string, part: string, post: string)
    requires Mentions(text, part)
    ensures Mentions(text + post, part)
  {
    var i: nat :| i <= |text| && OccursAt(text, part, i);
    assert (text + post)[i..i + |part|] == text[i..i + |part|];
    assert OccursAt(text + post, part, i);
  }
}
