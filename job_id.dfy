/**
 * The job-id shape check that `get_job_detail_ids` applies to an anchor's `id`:
 * the anchored pattern `^[a-f0-9]{8}-[a-f0-9]{4}-[a-f0-9]{4}-[a-f0-9]{4}-[a-f0-9]{12}$`.
 * Rust's `regex` crate only lets `$` match at the very end of the text, so the
 * pattern accepts a whole string or nothing.
 */
module JobId {

  /** The character class `[a-f0-9]`. */
  predicate IsLowerHex(c: char) {
    '0' <= c <= '9' || 'a' <= c <= 'f'
  }

  /** The repetition counts of the five hex groups, in pattern order. */
  const GroupLengths: seq<nat> := [8, 4, 4, 4, 12]

  /** The rest of the pattern, `groups` hex runs joined by `-` and then the end
      of the text, matches `s` starting at offset `pos`. */
  predicate MatchesFrom(s: string, pos: nat, groups: seq<nat>)
    requires |groups| > 0
    decreases |groups|
  {
    var n := groups[0];
    pos + n <= |s| &&
    (forall i :: pos <= i < pos + n ==> IsLowerHex(s[i])) &&
    if |groups| == 1 then
      pos + n == |s|
    else
      pos + n < |s| && s[pos + n] == '-' && MatchesFrom(s, pos + n + 1, groups[1..])
  }

  /** `hash_pattern.is_match(s)`. */
  predicate IsJobId(s: string) {
    MatchesFrom(s, 0, GroupLengths)
  }

  /** The offsets at which the pattern puts its four hyphens. */
  predicate IsHyphenOffset(i: int) {
    i == 8 || i == 13 || i == 18 || i == 23
  }

  /** The flat reading of the pattern: 36 characters, `-` at offsets 8, 13, 18
      and 23, and a lower-case hex digit everywhere else. */
  predicate WellShaped(s: string) {
    |s| == 36 &&
    forall i :: 0 <= i < |s| ==> if IsHyphenOffset(i) then s[i] == '-' else IsLowerHex(s[i])
  }

  /** The pattern accepts exactly the well-shaped strings. */
  lemma IsJobIdIff(s: string)
    ensures IsJobId(s) <==> WellShaped(s)
  {
    assert GroupLengths[1..] == [4, 4, 4, 12];
    assert GroupLengths[1..][1..] == [4, 4, 12];
    assert GroupLengths[1..][1..][1..] == [4, 12];
    assert GroupLengths[1..][1..][1..][1..] == [12];
    if IsJobId(s) {
      assert MatchesFrom(s, 9, [4, 4, 4, 12]);
      assert MatchesFrom(s, 14, [4, 4, 12]);
      assert MatchesFrom(s, 19, [4, 12]);
      assert MatchesFrom(s, 24, [12]);
      forall i | 0 <= i < |s|
        ensures if IsHyphenOffset(i) then s[i] == '-' else IsLowerHex(s[i])
      {
        if i < 8 {
        } else if i < 13 {
        } else if i < 18 {
        } else if i < 23 {
        }
      }
    }
    if WellShaped(s) {
      assert forall i :: 24 <= i < 36 ==> IsLowerHex(s[i]) by {
        forall i | 24 <= i < 36 ensures IsLowerHex(s[i]) { assert !IsHyphenOffset(i); }
      }
      assert MatchesFrom(s, 24, [12]);
      assert forall i :: 19 <= i < 23 ==> IsLowerHex(s[i]) by {
        forall i | 19 <= i < 23 ensures IsLowerHex(s[i]) { assert !IsHyphenOffset(i); }
      }
      assert MatchesFrom(s, 19, [4, 12]);
      assert forall i :: 14 <= i < 18 ==> IsLowerHex(s[i]) by {
        forall i | 14 <= i < 18 ensures IsLowerHex(s[i]) { assert !IsHyphenOffset(i); }
      }
      assert MatchesFrom(s, 14, [4, 4, 12]);
      assert forall i :: 9 <= i < 13 ==> IsLowerHex(s[i]) by {
        forall i | 9 <= i < 13 ensures IsLowerHex(s[i]) { assert !IsHyphenOffset(i); }
      }
      assert MatchesFrom(s, 9, [4, 4, 4, 12]);
      assert forall i :: 0 <= i < 8 ==> IsLowerHex(s[i]) by {
        forall i | 0 <= i < 8 ensures IsLowerHex(s[i]) { assert !IsHyphenOffset(i); }
      }
    }
  }

  /** Every accepted id is exactly 36 characters long. */
  lemma JobIdLength(s: string)
    requires IsJobId(s)
    ensures |s| == 36
  {
    IsJobIdIff(s);
  }

  /** Nothing may precede or follow an accepted id: the match is anchored at
      both ends. */
  lemma JobIdAnchored(s: string, t: string)
    requires IsJobId(s) && t != []
    ensures !IsJobId(s + t) && !IsJobId(t + s)
  {
    IsJobIdIff(s);
    IsJobIdIff(s + t);
    IsJobIdIff(t + s);
  }

  /** An upper-case hex digit anywhere in the string makes it fail. */
  lemma UpperCaseRejected(s: string, i: nat)
    requires i < |s| && 'A' <= s[i] <= 'F'
    ensures !IsJobId(s)
  {
    IsJobIdIff(s);
  }

  /** The id from a real job-detail page is accepted. */
  lemma SampleIdAccepted()
    ensures IsJobId("f0767d15-68a2-4c23-95c6-5685dedf2d2d")
  {
    var s := "f0767d15-68a2-4c23-95c6-5685dedf2d2d";
    assert WellShaped(s);
    IsJobIdIff(s);
  }

  /** An id of the wrong shape is refused. */
  lemma NotAUuidRejected()
    ensures !IsJobId("not-a-uuid")
  {
    IsJobIdIff("not-a-uuid");
  }
}
