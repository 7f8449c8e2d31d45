/**
 * The anchored, case-insensitive prefix alternation `^(?:p1|p2|…)\/` that both branch-name
 * extractors start with, and its characterisation: the segment before the first `/`
 * must be one of the approved prefixes, in any letter case.
 */
module BranchPrefix {
  import opened Wrappers
  import opened Text

  /** `s` starts with `p` when ASCII letter case is ignored; `p` is written in lower case */
  predicate StartsWithIgnoringCase(s: string, p: string)
  {
    |p| <= |s| && Lower(s[..|p|]) == p
  }

  /**
   * `^(?:a|b|…)\/` under the `i` flag, the alternatives tried in order: the text after
   * the first alternative and its `/`
   */
  function MatchPrefix(alternatives: seq<string>, s: string): Option<string>
  {
    if alternatives == [] then None
    else if StartsWithIgnoringCase(s, alternatives[0] + "/") then Some(s[|alternatives[0]| + 1..])
    else MatchPrefix(alternatives[1..], s)
  }

  /** Reference: the segment before the first `/`, lower-cased, is approved; the rest follows that `/` */
  function ApprovedRemainder(prefixes: seq<string>, s: string): Option<string>
  {
    match IndexOf(s, '/')
    case None => None
    case Some(k) => if Lower(s[..k]) in prefixes then Some(s[k + 1..]) else None
  }

  /** Prefix lists as both scripts write them: lower case, no `/` */
  predicate Canonical(prefixes: seq<string>)
  {
    forall i :: 0 <= i < |prefixes| ==> Lower(prefixes[i]) == prefixes[i] && '/' !in prefixes[i]
  }

  /** A word of lower-case ASCII letters is canonical */
  lemma LowercaseWordCanonical(s: string)
    requires forall i :: 0 <= i < |s| ==> 'a' <= s[i] <= 'z'
    ensures Lower(s) == s && '/' !in s
  {
  }

  /** Only `/` lower-cases to `/` */
  lemma LowerCharSlash(c: char)
    ensures LowerChar(c) == '/' <==> c == '/'
  {
  }

  /**
   * The alternation can succeed with at most one alternative, so trying them in order
   * is the same as looking at the segment before the first `/`.
   */
  lemma {:induction false} MatchPrefixIsApprovedRemainder(alternatives: seq<string>, s: string)
    requires Canonical(alternatives)
    ensures MatchPrefix(alternatives, s) == ApprovedRemainder(alternatives, s)
    decreases |alternatives|
  {
    if alternatives == [] {
      match IndexOf(s, '/')
      case None =>
      case Some(k) =>
    } else {
      var a := alternatives[0];
      var n := |a|;
      if StartsWithIgnoringCase(s, a + "/") {
        assert Lower(s[..n + 1])[n] == '/';
        LowerCharSlash(s[n]);
        forall i | 0 <= i < n
          ensures s[i] != '/'
        {
          assert Lower(s[..n + 1])[i] == a[i];
          LowerCharSlash(s[i]);
        }
        assert IndexOf(s, '/') == Some(n);
        assert Lower(s[..n]) == Lower(s[..n + 1])[..n];
      } else {
        MatchPrefixIsApprovedRemainder(alternatives[1..], s);
        match IndexOf(s, '/')
        case None =>
        case Some(k) =>
          assert Lower(s[..k]) in alternatives <==> Lower(s[..k]) in alternatives[1..];
      }
    }
  }

  /** Anchored and case-insensitive: any spelling `q` of an approved prefix, then `/`, leaves exactly `r` */
  lemma RemainderAfterPrefix(prefixes: seq<string>, q: string, r: string)
    requires Canonical(prefixes)
    requires Lower(q) in prefixes
    ensures MatchPrefix(prefixes, q + "/" + r) == Some(r)
  {
    var s := q + "/" + r;
    forall i | 0 <= i < |q|
      ensures s[i] != '/'
    {
      LowerCharSlash(q[i]);
      var j :| 0 <= j < |prefixes| && prefixes[j] == Lower(q);
      assert Lower(q)[i] in prefixes[j];
    }
    assert s[|q|] == '/';
    assert IndexOf(s, '/') == Some(|q|);
    assert s[..|q|] == q;
    assert s[|q| + 1..] == r;
    MatchPrefixIsApprovedRemainder(prefixes, s);
  }

  /** A leading segment that is not an approved prefix in any case is rejected */
  lemma UnapprovedSegmentRejected(prefixes: seq<string>, q: string, r: string)
    requires Canonical(prefixes)
    requires '/' !in q
    requires Lower(q) !in prefixes
    ensures MatchPrefix(prefixes, q + "/" + r) == None
  {
    var s := q + "/" + r;
    assert s[|q|] == '/';
    assert forall i :: 0 <= i < |q| ==> s[i] == q[i];
    assert IndexOf(s, '/') == Some(|q|);
    assert s[..|q|] == q;
    MatchPrefixIsApprovedRemainder(prefixes, s);
  }
}
