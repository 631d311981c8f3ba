/**
 * The mesh directory rewrite of handle_load_robot: Rust's
 * `String::replace("assets/", "")`, which scans left to right and deletes every
 * non-overlapping occurrence, not only a leading one.
 */
module MeshDir {

  const ASSETS: string := "assets/"

  /** Whether "assets/" starts at position i of s. */
  predicate OccursAt(s: string, i: nat)
  {
    i + |ASSETS| <= |s| && s[i..i + |ASSETS|] == ASSETS
  }

  predicate ContainsAssets(s: string)
  {
    exists i: nat | i < |s| :: OccursAt(s, i)
  }

  /** `s.replace("assets/", "")`; the result is never longer than s. */
  function StripAssets(s: string): (r: string)
    ensures |r| <= |s|
    decreases |s|
  {
    if s == [] then []
    else if OccursAt(s, 0) then StripAssets(s[|ASSETS|..])
    else [s[0]] + StripAssets(s[1..])
  }

  lemma OccursAtShift(s: string, i: nat)
    requires s != []
    ensures OccursAt(s[1..], i) <==> OccursAt(s, i + 1)
  {
    if i + 1 + |ASSETS| <= |s| {
      assert s[1..][i..i + |ASSETS|] == s[i + 1..i + 1 + |ASSETS|];
    }
  }

  /** The rewrite leaves s unchanged exactly when s holds no "assets/", and shortens it otherwise. */
  lemma {:induction false} StripAssetsIdentityIff(s: string)
    ensures StripAssets(s) == s <==> !ContainsAssets(s)
    ensures ContainsAssets(s) ==> |StripAssets(s)| < |s|
    decreases |s|
  {
    if s == [] {
    } else if OccursAt(s, 0) {
      assert ContainsAssets(s);
      assert |StripAssets(s[|ASSETS|..])| <= |s| - |ASSETS|;
    } else {
      StripAssetsIdentityIff(s[1..]);
      if ContainsAssets(s) {
        var i: nat :| OccursAt(s, i);
        assert i != 0;
        OccursAtShift(s, i - 1);
        assert ContainsAssets(s[1..]);
      } else {
        if ContainsAssets(s[1..]) {
          var i: nat :| OccursAt(s[1..], i);
          OccursAtShift(s, i);
          assert false;
        }
        assert [s[0]] + s[1..] == s;
      }
    }
  }

  /** A leading part without the letter 'a' is copied and the rest is rewritten. */
  lemma {:induction false} NoLetterAPrefix(p: string, s: string)
    requires forall k :: 0 <= k < |p| ==> p[k] != 'a'
    ensures StripAssets(p + s) == p + StripAssets(s)
    decreases |p|
  {
    if p != [] {
      var q := p + s;
      assert q[0] == p[0];
      MismatchAtStart(q, 0);
      FirstKept(q);
      assert q[1..] == p[1..] + s;
      NoLetterAPrefix(p[1..], s);
      assert [p[0]] + (p[1..] + StripAssets(s)) == p + StripAssets(s);
    } else {
      assert p + s == s;
    }
  }

  /** A string without the letter 'a' holds no "assets/" and is left as it is. */
  lemma NoLetterAUnchanged(s: string)
    requires forall k :: 0 <= k < |s| ==> s[k] != 'a'
    ensures StripAssets(s) == s
  {
    NoLetterAPrefix(s, []);
    assert s + [] == s;
  }

  /** A leading occurrence is deleted and the rest is rewritten. */
  lemma LeadingOccurrence(s: string)
    ensures StripAssets(ASSETS + s) == StripAssets(s)
  {
    assert OccursAt(ASSETS + s, 0) by { assert (ASSETS + s)[..|ASSETS|] == ASSETS; }
    assert (ASSETS + s)[|ASSETS|..] == s;
  }

  /** One occurrence between two parts without the letter 'a' is deleted and the parts are kept. */
  lemma DeleteOne(s: string, p: string, t: string)
    requires s == p + ASSETS + t
    requires forall k :: 0 <= k < |p| ==> p[k] != 'a'
    requires forall k :: 0 <= k < |t| ==> t[k] != 'a'
    ensures StripAssets(s) == p + t
  {
    assert s == p + (ASSETS + t);
    NoLetterAPrefix(p, ASSETS + t);
    LeadingOccurrence(t);
    NoLetterAUnchanged(t);
  }

  /** No occurrence starts where a character differs from the one "assets/" needs there. */
  lemma MismatchAtStart(s: string, k: nat)
    requires k < |ASSETS| && k < |s| && s[k] != ASSETS[k]
    ensures !OccursAt(s, 0)
  {
    if |ASSETS| <= |s| {
      assert s[..|ASSETS|][k] == s[k];
    }
  }

  /**
   * The example of a conventional asset directory, "assets/robots/meshes",
   * which becomes "robots/meshes".
   */
  lemma StripAssetsExample()
    ensures StripAssets(ASSETS + "robots/meshes") == "robots/meshes"
  {
    DeleteOne(ASSETS + "robots/meshes", "", "robots/meshes");
  }

  /** An occurrence in the middle is deleted too: "robots/assets/meshes" becomes "robots/meshes". */
  lemma StripAssetsInterior()
    ensures StripAssets("robots/" + ASSETS + "meshes") == "robots/" + "meshes"
  {
    DeleteOne("robots/" + ASSETS + "meshes", "robots/", "meshes");
  }

  /** A first character that does not start an occurrence is kept. */
  lemma FirstKept(s: string)
    requires s != [] && !OccursAt(s, 0)
    ensures StripAssets(s) == [s[0]] + StripAssets(s[1..])
  {
  }

  /** Deleting the inner occurrence of "assassets/ets/" leaves a new "assets/". */
  lemma StripAssetsFormsNew()
    ensures StripAssets("ass" + ASSETS + "ets/") == ASSETS
  {
    var s := "ass" + ASSETS + "ets/";
    MismatchAtStart(s, 3);
    FirstKept(s);
    assert s[1..] == "ss" + ASSETS + "ets/";
    DeleteOne(s[1..], "ss", "ets/");
  }

  /** "assets/" alone is deleted entirely. */
  lemma StripAssetsWhole()
    ensures StripAssets(ASSETS) == []
  {
    assert ASSETS == [] + ASSETS + [];
    DeleteOne(ASSETS, [], []);
  }

  /**
   * The rewrite is not idempotent: deleting one occurrence can form a new one,
   * so "assassets/ets/" becomes "assets/" and a second pass would give "".
   */
  lemma StripAssetsNotIdempotent()
    ensures var once := StripAssets("ass" + ASSETS + "ets/");
      once == ASSETS && StripAssets(once) == [] && StripAssets(once) != once
  {
    StripAssetsFormsNew();
    StripAssetsWhole();
  }
}
