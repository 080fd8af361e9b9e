/**
 * The organization placeholder of the resources query: `resources_query.replace("$ORGA$",
 * orga_url)`. The query text itself is not modelled; the template is a parameter.
 */
module QueryTemplate {

  const Placeholder: string := "$ORGA$"

  /** The placeholder occurs in `s` starting at index `i`. */
  predicate OccursAt(s: string, i: nat)
  {
    i + |Placeholder| <= |s| && s[i..i + |Placeholder|] == Placeholder
  }

  /**
   * Python's `str.replace`: scanning left to right, every non-overlapping occurrence of the
   * placeholder is replaced by `orgaUrl`.
   */
  function Substitute(template: string, orgaUrl: string): string
    decreases |template|
  {
    if |template| < |Placeholder| then template
    else if template[..|Placeholder|] == Placeholder
    then orgaUrl + Substitute(template[|Placeholder|..], orgaUrl)
    else [template[0]] + Substitute(template[1..], orgaUrl)
  }

  /** Dropping the first character moves every later occurrence one place to the left. */
  lemma Shift(s: string, i: nat)
    requires |s| > 0 && !OccursAt(s, i + 1)
    ensures !OccursAt(s[1..], i)
  {
    if i + |Placeholder| <= |s[1..]| {
      assert s[1..][i..i + |Placeholder|] == s[i + 1..i + 1 + |Placeholder|];
    }
  }

  /** Where no placeholder starts, the first character is kept as it is. */
  lemma KeepFirst(s: string, orgaUrl: string)
    requires |s| > 0 && !OccursAt(s, 0)
    ensures Substitute(s, orgaUrl) == [s[0]] + Substitute(s[1..], orgaUrl)
  {
    if |s| >= |Placeholder| {
      assert s[..|Placeholder|] != Placeholder;
    }
  }

  /** The rest of `before` has no occurrence either. */
  lemma NoEarlierOccurrence(before: string, rest: string)
    requires |before| > 0
    requires forall i: nat :: i < |before| ==> !OccursAt(before + rest, i)
    ensures forall i: nat :: i < |before[1..]| ==> !OccursAt(before[1..] + rest, i)
  {
    var s := before + rest;
    assert s[1..] == before[1..] + rest;
    forall i: nat | i < |before[1..]|
      ensures !OccursAt(before[1..] + rest, i)
    {
      Shift(s, i);
    }
  }

  /** Text in which no placeholder starts is kept as it is. */
  lemma {:induction false} KeepPrefix(before: string, rest: string, orgaUrl: string)
    requires forall i: nat :: i < |before| ==> !OccursAt(before + rest, i)
    ensures Substitute(before + rest, orgaUrl) == before + Substitute(rest, orgaUrl)
    decreases |before|
  {
    if before != [] {
      var s := before + rest;
      NoEarlierOccurrence(before, rest);
      KeepPrefix(before[1..], rest, orgaUrl);
      KeepFirst(s, orgaUrl);
      assert s[0] == before[0] && s[1..] == before[1..] + rest;
      assert [before[0]] + before[1..] == before;
    } else {
      assert before + rest == rest;
      assert before + Substitute(rest, orgaUrl) == Substitute(rest, orgaUrl);
    }
  }

  /** A placeholder at the start is replaced. */
  lemma ReplaceFirst(after: string, orgaUrl: string)
    ensures Substitute(Placeholder + after, orgaUrl) == orgaUrl + Substitute(after, orgaUrl)
  {
    var s := Placeholder + after;
    assert s[..|Placeholder|] == Placeholder;
    assert s[|Placeholder|..] == after;
  }

  /** A template without the placeholder is sent unchanged. */
  lemma SubstituteNoPlaceholder(template: string, orgaUrl: string)
    requires forall i: nat :: !OccursAt(template, i)
    ensures Substitute(template, orgaUrl) == template
  {
    assert template + [] == template;
    KeepPrefix(template, [], orgaUrl);
  }

  /**
   * The first occurrence of the placeholder is replaced by the organization URL, the text
   * before it is kept, and the rest is substituted in turn.
   */
  lemma SubstituteFirst(before: string, after: string, orgaUrl: string)
    requires forall i: nat :: i < |before| ==> !OccursAt(before + Placeholder + after, i)
    ensures Substitute(before + Placeholder + after, orgaUrl)
         == before + orgaUrl + Substitute(after, orgaUrl)
  {
    assert before + Placeholder + after == before + (Placeholder + after);
    KeepPrefix(before, Placeholder + after, orgaUrl);
    ReplaceFirst(after, orgaUrl);
  }
}
