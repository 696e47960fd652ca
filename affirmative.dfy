/**
 The test that decides whether a reply to the correction offer accepts it:
 the reply is lowercased and accepted when any of seven fixed keywords occurs
 in it as a substring (app.py, lines 92-93).
 */
module Affirmative {

  /** The keywords, in the order app.py, line 93, lists them. */
  const Keywords: seq<string> := ["yes", "yeah", "sure", "ok", "okay", "yep", "please"]

  /** Lowercasing of one character, restricted to ASCII letters. */
  function LowerChar(c: char): (d: char)
    ensures !('A' <= d <= 'Z')
    ensures 'A' <= c <= 'Z' ==> 'a' <= d <= 'z' && d as int - 'a' as int == c as int - 'A' as int
    ensures !('A' <= c <= 'Z') ==> d == c
  {
    if 'A' <= c <= 'Z' then (c as int - 'A' as int + 'a' as int) as char else c
  }

  /** Lowercasing of a string, character by character. */
  function Lower(s: string): (r: string)
    ensures |r| == |s|
    ensures forall i :: 0 <= i < |s| ==> r[i] == LowerChar(s[i])
  {
    if s == [] then [] else [LowerChar(s[0])] + Lower(s[1..])
  }

  /** Lowercasing a lowercased string changes nothing. */
  lemma LowerIdempotent(s: string)
    ensures Lower(Lower(s)) == Lower(s)
  {

  }

  /** `w` occurs in `s` starting at position `i`. */
  ghost predicate OccursAt(w: string, s: string, i: int) {
    0 <= i && i + |w| <= |s| && s[i..i + |w|] == w
  }

  /** Python's `w in s` on strings: `w` is a contiguous substring of `s`. */
  ghost predicate IsSubstring(w: string, s: string) {
    exists i :: OccursAt(w, s, i)
  }

  /** An occurrence in the tail of `s` is an occurrence in `s`, one position later. */
  lemma OccursInTail(w: string, s: string, i: int)
    requires s != [] && 0 <= i
    ensures OccursAt(w, s[1..], i) <==> OccursAt(w, s, i + 1)
  {

  }

  /** The substring test, scanning `s` from the left. */
  function Contains(s: string, w: string): (b: bool)
    ensures b <==> IsSubstring(w, s)
    decreases |s|
  {
    if |w| > |s| then
      false
    else if s[..|w|] == w then
      assert OccursAt(w, s, 0);
      true
    else
      var rest := Contains(s[1..], w);
      assert rest ==> IsSubstring(w, s) by {
        if rest {
          var i :| OccursAt(w, s[1..], i);
          OccursInTail(w, s, i);
        }
      }
      assert IsSubstring(w, s) ==> rest by {
        if IsSubstring(w, s) {
          var i :| OccursAt(w, s, i);
          assert i != 0;
          OccursInTail(w, s, i - 1);
        }
      }
      rest
  }

  /** Python's `any(word in s for word in words)`. */
  function AnyOccurs(words: seq<string>, s: string): (b: bool)
    ensures b <==> exists k :: 0 <= k < |words| && IsSubstring(words[k], s)
  {
    if words == [] then
      false
    else
      var rest := AnyOccurs(words[1..], s);
      assert rest <==> exists k :: 1 <= k < |words| && IsSubstring(words[k], s) by {
        if rest {
          var k :| 0 <= k < |words| - 1 && IsSubstring(words[1..][k], s);
          assert words[k + 1] == words[1..][k];
        }
        forall k | 1 <= k < |words| && IsSubstring(words[k], s) ensures rest {
          assert words[1..][k - 1] == words[k];
        }
      }
      Contains(s, words[0]) || rest
  }

  /** The reply accepts the correction offer. */
  function IsAffirmative(reply: string): (b: bool)
    ensures b <==> exists k :: 0 <= k < |Keywords| && IsSubstring(Keywords[k], Lower(reply))
  {
    AnyOccurs(Keywords, Lower(reply))
  }

  /** The test does not depend on the case of the reply. */
  lemma AffirmativeIgnoresCase(reply: string)
    ensures IsAffirmative(Lower(reply)) == IsAffirmative(reply)
  {
    LowerIdempotent(reply);
  }

  /** An occurrence in the lowercased reply is an occurrence in the lowercased reply in context. */
  lemma OccursInContext(w: string, before: string, reply: string, after: string, i: int)
    requires OccursAt(w, Lower(reply), i)
    ensures OccursAt(w, Lower(before + reply + after), |before| + i)
  {

  }

  /** An accepting reply stays accepting whatever text surrounds it. */
  lemma AffirmativeInContext(before: string, reply: string, after: string)
    requires IsAffirmative(reply)
    ensures IsAffirmative(before + reply + after)
  {
    var k :| 0 <= k < |Keywords| && IsSubstring(Keywords[k], Lower(reply));
    var i :| OccursAt(Keywords[k], Lower(reply), i);
    OccursInContext(Keywords[k], before, reply, after, i);
    assert IsSubstring(Keywords[k], Lower(before + reply + after));
  }

  /** The keyword "okay" never decides anything: every reply containing it contains "ok". */
  lemma OkayIsRedundant(reply: string)
    ensures IsAffirmative(reply) <==>
      exists k :: 0 <= k < |Keywords| && k != 4 && IsSubstring(Keywords[k], Lower(reply))
  {
    var s := Lower(reply);
    if IsSubstring("okay", s) {
      var i :| OccursAt("okay", s, i);
      assert s[i..i + 2] == s[i..i + 4][..2] == "ok";
      assert OccursAt(Keywords[3], s, i);
    }
  }

  /** A keyword occurring at a position of the lowercased reply makes the reply accepted. */
  lemma AcceptedAt(reply: string, k: nat, i: int)
    requires k < |Keywords| && OccursAt(Keywords[k], Lower(reply), i)
    ensures IsAffirmative(reply)
  {
  }

  /** A word holding a character that `s` lacks is not a substring of `s`. */
  lemma MissingCharacter(w: string, s: string, c: char)
    requires c in w && c !in s
    ensures !IsSubstring(w, s)
  {

  }

  /** Every keyword holds one of 'y', 's', 'k' and 'p'; so a reply without them is rejected. */
  lemma RejectedWithout(reply: string)
    requires 'y' !in Lower(reply) && 's' !in Lower(reply)
    requires 'k' !in Lower(reply) && 'p' !in Lower(reply)
    ensures !IsAffirmative(reply)
  {
    var s := Lower(reply);
    MissingCharacter(Keywords[0], s, 'y');
    MissingCharacter(Keywords[1], s, 'y');
    MissingCharacter(Keywords[2], s, 's');
    MissingCharacter(Keywords[3], s, 'k');
    MissingCharacter(Keywords[4], s, 'k');
    MissingCharacter(Keywords[5], s, 'y');
    MissingCharacter(Keywords[6], s, 'p');
  }

  /** Replies the test accepts: the keyword may start a phrase, and case does not matter. */
  lemma AcceptedReplies(reply: string)
    requires reply == "yes" || reply == "Sure!" || reply == "ok please" || reply == "YEAH"
    ensures IsAffirmative(reply)
  {
    var l := Lower(reply);
    if reply == "yes" {
      assert l == "yes";
      AcceptedAt(reply, 0, 0);
    } else if reply == "Sure!" {
      assert l[0] == 's' && l[1] == 'u' && l[2] == 'r' && l[3] == 'e';
      assert l[0..4] == "sure";
      AcceptedAt(reply, 2, 0);
    } else if reply == "ok please" {
      assert l[0] == 'o' && l[1] == 'k';
      assert l[0..2] == "ok";
      AcceptedAt(reply, 3, 0);
    } else {
      assert l == "yeah";
      AcceptedAt(reply, 1, 0);
    }
  }

  /** Because the test looks for substrings, replies that decline in words are accepted too. */
  lemma AcceptedRefusals(reply: string)
    requires reply == "I'm not sure" || reply == "no, not okay"
    ensures IsAffirmative(reply)
  {
    var l := Lower(reply);
    if reply == "I'm not sure" {
      assert l[8] == 's' && l[9] == 'u' && l[10] == 'r' && l[11] == 'e';
      assert l[8..12] == "sure";
      AcceptedAt(reply, 2, 8);
    } else {
      assert l[8] == 'o' && l[9] == 'k';
      assert l[8..10] == "ok";
      AcceptedAt(reply, 3, 8);
    }
  }

  /** Replies the test rejects, the empty reply among them. */
  lemma RejectedReplies(reply: string)
    requires reply == "no" || reply == "later" || reply == "" || reply == "nah"
    ensures !IsAffirmative(reply)
  {
    var l := Lower(reply);
    if reply == "no" {
      assert l == "no";
    } else if reply == "later" {
      assert l == "later";
    } else if reply == "nah" {
      assert l == "nah";
    }
    RejectedWithout(reply);
  }
}
