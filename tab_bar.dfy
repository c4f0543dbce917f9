/**
 * The bottom tab bar (src/components/CustomTabBar.tsx): the six tabs, the route a press
 * navigates to, and which tab is highlighted for the current path.
 */
module TabBar {
  import opened Strings

  /** The tab names, in display order. */
  function TabNames(): (r: seq<string>)
    ensures |r| == 6 && r[0] == "index"
    ensures forall i, j :: 0 <= i < j < |r| ==> r[i] != r[j]
  {
    ["index", "courses", "calendar", "notes-assign", "statistics", "settings"]
  }

  /** `handleTabPress`: the route pushed for a tab name. */
  function TabRoute(tabName: string): (route: string)
    ensures tabName == "index" ==> route == "/(tabs)"
    ensures tabName in TabNames() && tabName != "index" ==> route == "/(tabs)/" + tabName
    ensures tabName !in TabNames() ==> route == "/(tabs)"
  {
    if tabName == "index" then "/(tabs)"
    else if tabName in TabNames() then "/(tabs)/" + tabName
    else "/(tabs)"
  }

  /** `isTabActive`: the home tab on its three paths, any other tab when the path contains `/name`. */
  predicate IsTabActive(tabName: string, pathname: string) {
    if tabName == "index" then pathname == "/" || pathname == "/(tabs)" || pathname == "/(tabs)/index"
    else Contains(pathname, "/" + tabName)
  }

  /** Pressing a tab navigates to a path on which that tab is highlighted. */
  lemma PressedTabActive(tabName: string)
    requires tabName in TabNames()
    ensures IsTabActive(tabName, TabRoute(tabName))
  {
    if tabName != "index" {
      assert TabRoute(tabName) == "/(tabs)" + ("/" + tabName) + "";
      ContainsInfix("/(tabs)", "/" + tabName, "");
    }
  }

  /** A tab other than home stays highlighted on every path nested under one where it is. */
  lemma NestedPathsStayActive(tabName: string, pathname: string, pre: string, post: string)
    requires tabName != "index" && IsTabActive(tabName, pathname)
    ensures IsTabActive(tabName, pre + pathname + post)
  {
    ContainedIn(pathname, "/" + tabName, pre, post);
  }

  /** Whatever a string contains, any string around it contains too. */
  lemma {:induction false} ContainedIn(s: string, t: string, pre: string, post: string)
    requires Contains(s, t)
    ensures Contains(pre + s + post, t)
    decreases |s|
  {
    if |t| <= |s| && s[..|t|] == t {
      assert s == t + s[|t|..];
      assert pre + s + post == pre + t + (s[|t|..] + post);
      ContainsInfix(pre, t, s[|t|..] + post);
    } else {
      ContainedIn(s[1..], t, pre + [s[0]], post);
      assert pre + [s[0]] + s[1..] + post == pre + s + post;
    }
  }

  /** `t` occurs in `s` starting at position `i`. */
  predicate MatchesAt(s: string, t: string, i: nat) {
    i + |t| <= |s| && s[i..i + |t|] == t
  }

  /** A string with `t` at no position does not contain `t`. */
  lemma {:induction false} NotContained(s: string, t: string)
    requires forall i: nat :: !MatchesAt(s, t, i)
    ensures !Contains(s, t)
    decreases |s|
  {
    assert !MatchesAt(s, t, 0);
    if s != [] {
      forall i: nat ensures !MatchesAt(s[1..], t, i) {
        assert !MatchesAt(s, t, i + 1);
        if i + |t| <= |s[1..]| {
          assert s[1..][i..i + |t|] == s[i + 1..i + 1 + |t|];
        }
      }
      NotContained(s[1..], t);
    }
  }

  /** No tab name contains a slash or starts with a parenthesis, and no two share their first two letters. */
  lemma TabNamesApart(name: string, other: string)
    requires name in TabNames() && other in TabNames() && name != other
    ensures '/' !in name && other[0] != '('
    ensures |name| >= 2 && |other| >= 2 && (name[0] != other[0] || name[1] != other[1])
  {
  }

  /** A route has a slash only at its start and, for a tab other than home, before the tab name. */
  lemma RouteSlashes(tabName: string)
    requires tabName in TabNames()
    ensures var route := TabRoute(tabName);
      forall i :: 0 <= i < |route| && route[i] == '/' ==> i == 0 || (i == 7 && tabName != "index")
  {
    TabNamesApart(tabName, if tabName == "index" then "courses" else "index");
    var route := TabRoute(tabName);
    if tabName != "index" {
      assert route == "/(tabs)/" + tabName;
      forall i | 8 <= i < |route| ensures route[i] == tabName[i - 8] && route[i] != '/' {
        assert tabName[i - 8] in tabName;
      }
    }
  }

  /** After a press, the pressed tab is the only highlighted one. */
  lemma OnlyPressedTabActive(tabName: string, other: string)
    requires tabName in TabNames() && other in TabNames() && other != tabName
    ensures !IsTabActive(other, TabRoute(tabName))
  {
    if other != "index" {
      TabNamesApart(tabName, other);
      RouteSlashes(tabName);
      var route, t := TabRoute(tabName), "/" + other;
      forall i: nat | i + |t| <= |route| ensures !MatchesAt(route, t, i) {
        var m := route[i..i + |t|];
        if route[i] != '/' {
          assert m[0] != t[0];
        } else if i == 0 {
          assert m[1] == '(' != t[1];
        } else {
          assert route == "/(tabs)/" + tabName;
          assert m[1] == tabName[0] && m[2] == tabName[1] && t[1] == other[0] && t[2] == other[1];
        }
      }
      NotContained(route, t);
    }
  }
}
