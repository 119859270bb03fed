/** The text that a query is rewritten to, in full: which texts are wrapped, and into what. */
module WrappedText {
  import opened Text
  import opened Keyword
  import opened LeadingWord
  import opened Bounding

  /** The inner query: the text without the white space at its ends, then without the longest tail of
      semicolons and spaces, then without the white space that this leaves behind. */
  predicate IsTrim(sql: string, lead: string, inner: string, gap: string, dropped: string, tail: string) {
    && sql == lead + inner + gap + dropped + tail && Blank(lead) && Blank(gap) && Blank(tail)
    && Trimmed(inner) && Trimmed(inner + gap + dropped)
    && (forall i :: 0 <= i < |dropped| ==> dropped[i] == ';' || dropped[i] == ' ')
    && var kept := inner + gap;
       kept == "" || (kept[|kept| - 1] != ';' && kept[|kept| - 1] != ' ')
  }

  lemma Regroup5(lead: string, inner: string, gap: string, dropped: string, tail: string)
    ensures lead + (inner + gap + dropped) + tail == lead + inner + gap + dropped + tail
  {
  }

  lemma TrimFound(sql: string) returns (lead: string, gap: string, dropped: string, tail: string)
    ensures IsTrim(sql, lead, Inner(sql), gap, dropped, tail)
  {
    var m := TrimSpace(sql);
    lead, tail := TrimSpaceParts(sql);
    gap, dropped := TrimMiddle(m);
    Regroup5(lead, Inner(sql), gap, dropped, tail);
  }

  lemma TrimMiddle(m: string) returns (gap: string, dropped: string)
    requires Trimmed(m)
    ensures var inner := TrimSpace(TrimTerminators(m));
            && m == inner + gap + dropped && inner + gap == TrimTerminators(m)
            && Blank(gap) && AllTerminators(dropped) && Trimmed(inner)
    ensures var kept := TrimTerminators(m); kept == "" || !IsTerminator(kept[|kept| - 1])
  {
    var kept := TrimTerminators(m);
    InnerTrims(m);
    TrimTerminatorsCuts(m);
    TrimRightCuts(kept);
    gap, dropped := kept[|TrimRight(kept)|..], m[|kept|..];
    assert kept == TrimRight(kept) + gap && m == kept + dropped;
    InnerIsTrimmed(kept);
  }

  lemma InnerIsTrimmed(s: string)
    ensures Trimmed(TrimSpace(s))
  {
    var lead, tail := TrimSpaceParts(s);
  }

  lemma WrappedIs(inner: string, k: int)
    ensures Wrapped(inner, k) == "SELECT * FROM (" + inner + "\n) LIMIT " + Itoa(k)
  {
    assert OPENING + "(" == "SELECT * FROM (";
  }

  /** What a query is rewritten to: a text whose first word is SELECT or WITH becomes the inner query
      between these two literals, with the limit behind; any other stays as it is. */
  lemma BoundIs(sql: string, k: int)
    ensures (exists ts, word, end :: Begins(sql, ts, word, end) && Upper(word) in {"SELECT", "WITH"}) ==>
              exists lead, inner, gap, dropped, tail ::
                && IsTrim(sql, lead, inner, gap, dropped, tail)
                && Bound(sql, k) == "SELECT * FROM (" + inner + "\n) LIMIT " + Itoa(k)
    ensures !(exists ts, word, end :: Begins(sql, ts, word, end) && Upper(word) in {"SELECT", "WITH"}) ==>
              Bound(sql, k) == sql
  {
    CanBoundIff(sql);
    if CanBound(sql) {
      var lead, gap, dropped, tail := TrimFound(sql);
      WrappedIs(Inner(sql), k);
    }
  }

  /** There is but one way to cut a text so. */
  lemma TrimUnique(sql: string, lead: string, inner: string, gap: string, dropped: string, tail: string)
    requires IsTrim(sql, lead, inner, gap, dropped, tail)
    ensures inner == Inner(sql)
  {
    var m := inner + gap + dropped;
    Regroup5(lead, inner, gap, dropped, tail);
    TrimSpaceIsParts(lead, m, tail);
    TrimTerminatorsIsParts(inner + gap, dropped);
    TrimSpaceIsParts([], inner, gap);
    assert [] + inner + gap == inner + gap;
  }
}
