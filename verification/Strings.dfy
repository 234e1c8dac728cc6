/** Trimming, each time of the blanks a caller means, and ASCII case. */
module Strings {
  function LowerAscii(c: char): char { if 'A' <= c <= 'Z' then c - 'A' + 'a' else c }

  function TrimStart(s: string, blank: char -> bool): string {
    if s != "" && blank(s[0]) then TrimStart(s[1..], blank) else s
  }

  function TrimEnd(s: string, blank: char -> bool): string {
    if s != "" && blank(s[|s| - 1]) then TrimEnd(s[..|s| - 1], blank) else s
  }

  function Trim(s: string, blank: char -> bool): string { TrimEnd(TrimStart(s, blank), blank) }

  ghost predicate AllBlank(s: string, blank: char -> bool) { forall i :: 0 <= i < |s| ==> blank(s[i]) }

  /** The text begins and ends with a character that is not blank. */
  ghost predicate Solid(s: string, blank: char -> bool) { s != "" && !blank(s[0]) && !blank(s[|s| - 1]) }

  lemma {:induction false} TrimStartDrops(before: string, s: string, blank: char -> bool)
    requires AllBlank(before, blank) && (s == "" || !blank(s[0]))
    ensures TrimStart(before + s, blank) == s
    decreases |before|
  {
    if before == "" {
      assert before + s == s;
    } else {
      assert (before + s)[1..] == before[1..] + s;
      TrimStartDrops(before[1..], s, blank);
    }
  }

  lemma {:induction false} TrimEndDrops(s: string, after: string, blank: char -> bool)
    requires AllBlank(after, blank) && (s == "" || !blank(s[|s| - 1]))
    ensures TrimEnd(s + after, blank) == s
    decreases |after|
  {
    if after == "" {
      assert s + after == s;
    } else {
      assert (s + after)[..|s + after| - 1] == s + after[..|after| - 1];
      TrimEndDrops(s, after[..|after| - 1], blank);
    }
  }

  /** Trimming takes away the blanks at both ends, and those only. */
  lemma TrimDrops(before: string, s: string, after: string, blank: char -> bool)
    requires AllBlank(before, blank) && AllBlank(after, blank) && (s == "" || Solid(s, blank))
    ensures Trim(before + s + after, blank) == s
  {
    if s == "" {
      var all := before + s + after;
      assert AllBlank(all, blank) && all + "" == all;
      TrimStartDrops(all, "", blank);
    } else {
      assert before + s + after == before + (s + after);
      TrimStartDrops(before, s + after, blank);
      TrimEndDrops(s, after, blank);
    }
  }

  lemma {:induction false} TrimStartKeeps(s: string, blank: char -> bool) returns (before: string)
    ensures s == before + TrimStart(s, blank) && AllBlank(before, blank)
    ensures TrimStart(s, blank) == "" || !blank(TrimStart(s, blank)[0])
    decreases |s|
  {
    before := "";
    if s != "" && blank(s[0]) {
      before := TrimStartKeeps(s[1..], blank);
      before := [s[0]] + before;
    }
  }

  lemma {:induction false} TrimEndKeeps(s: string, blank: char -> bool) returns (after: string)
    ensures s == TrimEnd(s, blank) + after && AllBlank(after, blank)
    ensures TrimEnd(s, blank) == "" || !blank(TrimEnd(s, blank)[|TrimEnd(s, blank)| - 1])
    decreases |s|
  {
    after := "";
    if s != "" && blank(s[|s| - 1]) {
      after := TrimEndKeeps(s[..|s| - 1], blank);
      after := after + [s[|s| - 1]];
    }
  }

  /** What trimming leaves stands between blanks. */
  lemma TrimKeeps(s: string, blank: char -> bool) returns (before: string, after: string)
    ensures s == before + Trim(s, blank) + after && AllBlank(before, blank) && AllBlank(after, blank)
    ensures Trim(s, blank) == "" || Solid(Trim(s, blank), blank)
  {
    before := TrimStartKeeps(s, blank);
    var rest := TrimStart(s, blank);
    after := TrimEndKeeps(rest, blank);
    assert Trim(s, blank) != "" ==> Trim(s, blank)[0] == rest[0];
  }

  /** The same letters, of which some are capital in one text and small in the other. */
  predicate SameButForCase(a: string, b: string) {
    && |a| == |b|
    && forall i :: 0 <= i < |a| ==>
         || a[i] == b[i]
         || ('A' <= a[i] <= 'Z' && b[i] as int == a[i] as int + 32)
         || ('A' <= b[i] <= 'Z' && a[i] as int == b[i] as int + 32)
  }

  lemma CaseIsIgnored(a: string, b: string)
    ensures SameButForCase(a, b) <==>
            |a| == |b| && forall i :: 0 <= i < |a| ==> LowerAscii(a[i]) == LowerAscii(b[i])
  {}
}
