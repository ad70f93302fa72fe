/** The list fields of the prompt (app.py lines 98-104): each multi-valued
    form field is joined with ", "; the stations lose their empty entries
    first, and the attributes and purposes carry their free-text "other"
    entry in parentheses when one was typed. */
module Fields {
  import opened Wrappers
  import opened Text

  const Comma := ", "

  /** `", ".join(xs)` */
  function Listed(xs: seq<string>): string {
    Join(Comma, xs)
  }

  /** Python truthiness of an optional form value: present and not empty. */
  predicate Truthy(o: Option<string>) {
    o.Some? && o.value != ""
  }

  /** `[s for s in xs if s]`: the non-empty entries, in order. */
  function NonEmpty(xs: seq<string>): (r: seq<string>)
    ensures |r| <= |xs|
    ensures forall k :: 0 <= k < |r| ==> r[k] != "" && r[k] in xs
  {
    if xs == [] then []
    else (if xs[0] == "" then [] else [xs[0]]) + NonEmpty(xs[1..])
  }

  /** Filtering distributes over concatenation, which is what keeps the
      original order. */
  lemma {:induction false} NonEmptyAppend(xs: seq<string>, ys: seq<string>)
    ensures NonEmpty(xs + ys) == NonEmpty(xs) + NonEmpty(ys)
    decreases |xs|
  {
    if xs == [] {
      assert xs + ys == ys;
    } else {
      assert (xs + ys)[1..] == xs[1..] + ys;
      NonEmptyAppend(xs[1..], ys);
    }
  }

  /** Each string is kept as often as it occurs, unless it is empty; white
      space entries are kept too. */
  lemma {:induction false} NonEmptyCount(xs: seq<string>)
    ensures multiset(NonEmpty(xs)) == multiset(xs)["" := 0]
    decreases |xs|
  {
    if xs != [] {
      NonEmptyCount(xs[1..]);
      assert xs == [xs[0]] + xs[1..];
    }
  }

  /** A list without empty entries passes through unchanged. */
  lemma {:induction false} NonEmptyKeeps(xs: seq<string>)
    requires forall k :: 0 <= k < |xs| ==> xs[k] != ""
    ensures NonEmpty(xs) == xs
    decreases |xs|
  {
    if xs != [] {
      NonEmptyKeeps(xs[1..]);
      assert xs == [xs[0]] + xs[1..];
    }
  }

  /** Nothing is left exactly when every entry was empty. */
  lemma {:induction false} NonEmptyNone(xs: seq<string>)
    ensures NonEmpty(xs) == [] <==> forall k :: 0 <= k < |xs| ==> xs[k] == ""
    decreases |xs|
  {
    if xs != [] {
      NonEmptyNone(xs[1..]);
      if forall k :: 0 <= k < |xs[1..]| ==> xs[1..][k] == "" {
        if xs[0] == "" {
          forall k | 0 <= k < |xs| ensures xs[k] == "" {
            if k > 0 {
              assert xs[k] == xs[1..][k - 1];
            }
          }
        }
      } else {
        var k :| 0 <= k < |xs[1..]| && xs[1..][k] != "";
        assert xs[k + 1] != "";
      }
    }
  }

  /** `", ".join([s for s in stations if s])` */
  function StationsLine(stations: seq<string>): string {
    Listed(NonEmpty(stations))
  }

  /** The stations line is empty exactly when no station was entered. */
  lemma StationsLineEmpty(stations: seq<string>)
    ensures StationsLine(stations) == "" <==> forall k :: 0 <= k < |stations| ==> stations[k] == ""
  {
    var kept := NonEmpty(stations);
    JoinEmpty(Comma, kept);
    NonEmptyNone(stations);
  }

  /** When no station name holds a comma and at least one station was
      entered, splitting the line at ", " gives back the non-empty names, in
      order.  (With none entered the line is "", which splits into [""].) */
  lemma StationsLineSplit(stations: seq<string>)
    requires forall k :: 0 <= k < |stations| ==> ',' !in stations[k]
    requires exists k :: 0 <= k < |stations| && stations[k] != ""
    ensures Split(Comma, StationsLine(stations)) == NonEmpty(stations)
  {
    var kept := NonEmpty(stations);
    NonEmptyNone(stations);
    forall k | 0 <= k < |kept| ensures Comma[0] !in kept[k] {
      var j :| 0 <= j < |stations| && stations[j] == kept[k];
    }
    SplitJoin(Comma, kept);
  }

  /** When the list is non-empty and no entry holds a comma, splitting the
      joined list gives it back. */
  lemma ListedSplit(xs: seq<string>)
    requires |xs| >= 1 && forall k :: 0 <= k < |xs| ==> ',' !in xs[k]
    ensures Split(Comma, Listed(xs)) == xs
  {
    SplitJoin(Comma, xs);
  }

  /** `", ".join(items) + (f" ({other})" if other else "")` */
  function WithOther(items: seq<string>, other: Option<string>): string {
    Listed(items) + (if Truthy(other) then " (" + other.value + ")" else "")
  }

  /** The joined list always comes first; a typed "other" entry follows it
      in parentheses and can be read back from there, and without one
      nothing is added. */
  lemma WithOtherParts(items: seq<string>, other: Option<string>)
    ensures var r, n := WithOther(items, other), |Listed(items)|;
            n <= |r| && r[..n] == Listed(items)
            && (Truthy(other) ==> |r| == n + |other.value| + 3 && r[n..n + 2] == " (" && r[|r| - 1] == ')'
                                  && r[n + 2..|r| - 1] == other.value)
            && (!Truthy(other) ==> r == Listed(items))
  {
  }

  /** A missing "other" field and an empty one read the same. */
  lemma WithOtherAbsent(items: seq<string>)
    ensures WithOther(items, None) == WithOther(items, Some("")) == Listed(items)
  {
  }

  /** With nothing ticked but an "other" entry typed, the field starts with
      a space: the suffix is not trimmed. */
  lemma WithOtherOnly(other: string)
    requires other != ""
    ensures WithOther([], Some(other)) == " (" + other + ")"
    ensures WithOther([], Some(other))[0] == ' '
  {
  }

  /** A blank station between two names is dropped and the names keep
      their order; a space-only entry stays. */
  lemma StationsLineExample()
    ensures StationsLine(["渋谷", "", "上野"]) == "渋谷, 上野"
    ensures StationsLine(["渋谷", " "]) == "渋谷,  "
  {
    assert NonEmpty(["上野"]) == ["上野"];
    assert NonEmpty(["", "上野"]) == ["上野"];
    assert NonEmpty(["渋谷", "", "上野"]) == ["渋谷", "上野"];
    assert NonEmpty([" "]) == [" "];
    assert NonEmpty(["渋谷", " "]) == ["渋谷", " "];
  }
}
