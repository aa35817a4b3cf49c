/**
 * Helpers of the `rename-hosts` automation (cmk/base/automations/check_mk.py):
 * moving a host's file to its new name, the regular-expression escaping of
 * host names, and the tally of the actions performed.
 */
module RenameHosts {
  import opened Wrappers
  import opened SiteFiles

  /**
   * After a successful rename the content is found under the new name only,
   * and every file other than the two involved is untouched.
   */
  lemma RenameMovesContent(before: map<string, string>, oldPath: string, newPath: string)
    requires oldPath in before && oldPath != newPath
    ensures var after := (before - {oldPath})[newPath := before[oldPath]];
      && oldPath !in after
      && newPath in after && after[newPath] == before[oldPath]
      && (forall p :: p != oldPath && p != newPath ==> (p in after <==> p in before))
      && (forall p :: p in after && p != newPath ==> after[p] == before[p])
      && |after.Keys| == |before.Keys| - (if newPath in before then 1 else 0)
  {
    var after := (before - {oldPath})[newPath := before[oldPath]];
    if newPath in before {
      assert after.Keys == before.Keys - {oldPath};
    } else {
      assert after.Keys == before.Keys - {oldPath} + {newPath};
    }
  }

  /** `name.replace(".", "[.]")`. */
  function EscapeForRegex(name: string): (r: string)
    ensures '.' in name <==> |r| > |name|
    ensures |r| == |name| + 2 * multiset(name)['.']
  {
    if name == [] then []
    else
      assert name == [name[0]] + name[1..];
      (if name[0] == '.' then "[.]" else [name[0]]) + EscapeForRegex(name[1..])
  }

  /** Reads an escaped name back: `[.]` stands for a dot. */
  function Unescape(s: string): string
  {
    if |s| >= 3 && s[..3] == "[.]" then "." + Unescape(s[3..])
    else if s == [] then []
    else [s[0]] + Unescape(s[1..])
  }

  lemma UnescapeBracket(rest: string)
    ensures Unescape("[.]" + rest) == "." + Unescape(rest)
  {
    var s := "[.]" + rest;
    assert s[..3] == "[.]" && s[3..] == rest;
  }

  lemma UnescapeOther(c: char, rest: string)
    requires c != '['
    ensures Unescape([c] + rest) == [c] + Unescape(rest)
  {
    var s := [c] + rest;
    assert s[0] == c && s[1..] == rest;
    assert |s| >= 3 ==> s[..3][0] == c;
  }

  /** For host names without `[`, the escaping loses nothing. */
  lemma {:induction false} EscapeRoundTrip(name: string)
    requires '[' !in name
    ensures Unescape(EscapeForRegex(name)) == name
  {
    if name != [] {
      EscapeRoundTrip(name[1..]);
      var rest := EscapeForRegex(name[1..]);
      if name[0] == '.' {
        UnescapeBracket(rest);
      } else {
        UnescapeOther(name[0], rest);
      }
      assert name == [name[0]] + name[1..];
    }
  }

  /** The escaped name contains no bare dot: every dot sits inside `[.]`. */
  lemma {:induction false} EscapedDotsBracketed(name: string, i: nat)
    requires i < |EscapeForRegex(name)| && EscapeForRegex(name)[i] == '.'
    ensures 0 < i < |EscapeForRegex(name)| - 1
    ensures EscapeForRegex(name)[i - 1] == '[' && EscapeForRegex(name)[i + 1] == ']'
  {
    var head := if name[0] == '.' then "[.]" else [name[0]];
    var rest := EscapeForRegex(name[1..]);
    assert EscapeForRegex(name) == head + rest;
    if i >= |head| {
      EscapedDotsBracketed(name[1..], i - |head|);
    }
  }

  /**
   * `{what: count}` of the performed actions: every action occurring in the
   * list is counted as often as it occurs.
   */
  method CountActions(actions: seq<string>) returns (counts: map<string, int>)
    ensures counts.Keys == set a | a in actions
    ensures forall a :: a in counts ==> counts[a] == multiset(actions)[a]
  {
    counts := map[];
    var i := 0;
    while i < |actions|
      invariant 0 <= i <= |actions|
      invariant counts.Keys == set a | a in actions[..i]
      invariant forall a :: a in counts ==> counts[a] == multiset(actions[..i])[a]
    {
      var action := actions[i];
      if action !in counts {
        counts := counts[action := 0];
      }
      counts := counts[action := counts[action] + 1];
      assert actions[..i + 1] == actions[..i] + [action];
      assert forall a :: a in actions[..i + 1] <==> a in actions[..i] || a == action;
      i := i + 1;
    }
    assert actions[..i] == actions;
  }
}
