/** Event names as dot-separated segments, and the wildcard patterns over them. */
module EventPattern {

  /** The segments between dots; there is always at least one. */
  function Split(s: string): (parts: seq<string>)
    ensures |parts| >= 1
  {
    if s == "" then [""]
    else
      var rest := Split(s[1..]);
      if s[0] == '.' then [""] + rest else [[s[0]] + rest[0]] + rest[1..]
  }

  function Join(parts: seq<string>): string {
    if parts == [] then ""
    else if |parts| == 1 then parts[0]
    else parts[0] + "." + Join(parts[1..])
  }

  predicate IsDotFree(s: string) {
    '.' !in s
  }

  predicate HasStar(s: string) {
    '*' in s
  }

  predicate MatchesPattern(event: string, pattern: string) {
    if pattern == "*" then true
    else if !HasStar(pattern) then event == pattern
    else
      var patternParts, eventParts := Split(pattern), Split(event);
      && |patternParts| == |eventParts|
      && forall i :: 0 <= i < |patternParts| ==> patternParts[i] == "*" || patternParts[i] == eventParts[i]
  }

  // ---- Splitting and joining are inverse ---------------------------------

  lemma {:induction false} JoinSplit(s: string)
    ensures Join(Split(s)) == s
    ensures forall i :: 0 <= i < |Split(s)| ==> IsDotFree(Split(s)[i])
  {
    if s != "" {
      var rest := Split(s[1..]);
      JoinSplit(s[1..]);
      if s[0] == '.' {
        assert ([""] + rest)[1..] == rest;
      } else {
        var parts := [[s[0]] + rest[0]] + rest[1..];
        assert parts[1..] == rest[1..];
        if |rest| > 1 {
          assert Join(parts) == [s[0]] + (rest[0] + "." + Join(rest[1..]));
        }
      }
      assert s == [s[0]] + s[1..];
    }
  }

  lemma {:induction false} SplitSegment(s: string, t: string)
    requires IsDotFree(s)
    ensures Split(s) == [s] && Split(s + "." + t) == [s] + Split(t)
  {
    if s == "" {
      assert s + "." + t == "." + t;
    } else {
      SplitSegment(s[1..], t);
      assert s + "." + t == [s[0]] + (s[1..] + "." + t);
      assert s == [s[0]] + s[1..];
    }
  }

  lemma {:induction false} SplitJoin(parts: seq<string>)
    requires parts != [] && forall i :: 0 <= i < |parts| ==> IsDotFree(parts[i])
    ensures Split(Join(parts)) == parts
  {
    if |parts| == 1 {
      SplitSegment(parts[0], "");
    } else {
      SplitJoin(parts[1..]);
      SplitSegment(parts[0], Join(parts[1..]));
    }
  }

  // ---- What a pattern means ------------------------------------------------

  /** The segments are those of the pattern, with each whole-segment star replaced by some dot-free
      string. A star inside a longer segment stands for itself. */
  ghost predicate IsInstance(patternParts: seq<string>, parts: seq<string>) {
    && |parts| == |patternParts|
    && forall i :: 0 <= i < |parts| ==> IsDotFree(parts[i]) && (patternParts[i] != "*" ==> parts[i] == patternParts[i])
  }

  lemma {:induction false} StarSegmentNeedsStar(pattern: string, i: nat)
    requires i < |Split(pattern)| && HasStar(Split(pattern)[i])
    ensures HasStar(pattern)
  {
    if pattern != "" {
      var rest := Split(pattern[1..]);
      if pattern[0] == '.' {
        StarSegmentNeedsStar(pattern[1..], i - 1);
      } else if i > 0 {
        StarSegmentNeedsStar(pattern[1..], i);
      } else if pattern[0] != '*' {
        StarSegmentNeedsStar(pattern[1..], 0);
      }
    }
  }

  /** Apart from the bare star, which matches everything, a pattern matches exactly its instances. */
  lemma MatchesExactlyInstances(event: string, pattern: string)
    requires pattern != "*"
    ensures MatchesPattern(event, pattern) <==> exists parts :: IsInstance(Split(pattern), parts) && event == Join(parts)
  {
    JoinSplit(event);
    JoinSplit(pattern);
    if MatchesPattern(event, pattern) {
      assert IsInstance(Split(pattern), Split(event));
    }
    if parts :| IsInstance(Split(pattern), parts) && event == Join(parts) {
      SplitJoin(parts);
      if !HasStar(pattern) {
        forall i | 0 <= i < |parts|
          ensures parts[i] == Split(pattern)[i]
        {
          if Split(pattern)[i] == "*" {
            StarSegmentNeedsStar(pattern, i);
          }
        }
        assert parts == Split(pattern);
      }
    }
  }

  /** A pattern matches exactly its instances, and the bare star every event. */
  lemma MatchesExactly(event: string, pattern: string)
    ensures MatchesPattern(event, pattern) <==>
              pattern == "*" || exists parts :: IsInstance(Split(pattern), parts) && event == Join(parts)
  {
    if pattern != "*" {
      MatchesExactlyInstances(event, pattern);
    }
  }
}
