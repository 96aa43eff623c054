/**
 * The countdown label of a launch status, `T-6d 4h` or `T+8s`: a sign prefix followed by at most
 * two components of the time to launch, starting at the first nonzero one. The components
 * (unit name and magnitude, in display order) and the signed duration in seconds are inputs.
 */
module Countdown {
  import opened Decimal

  /** One component of a duration: a unit name and its magnitude, e.g. ("days", 6). */
  datatype Component = Component(unit: string, magnitude: int)

  /** White space and line terminators as JavaScript's `String.prototype.trim` removes them. */
  predicate IsJsSpace(c: char) {
    c == '\t' || c == '\n' || c == 0x0B as char || c == 0x0C as char || c == '\r' || c == ' ' ||
    c == 0xA0 as char || c == 0x1680 as char || (0x2000 as char <= c <= 0x200A as char) ||
    c == 0x2028 as char || c == 0x2029 as char || c == 0x202F as char || c == 0x205F as char ||
    c == 0x3000 as char || c == 0xFEFF as char
  }

  /** `s` with its leading white space removed. */
  function TrimStart(s: string): string
  {
    if s != [] && IsJsSpace(s[0]) then TrimStart(s[1..]) else s
  }

  /** `s` with its trailing white space removed. */
  function TrimEnd(s: string): string
  {
    if s != [] && IsJsSpace(s[|s| - 1]) then TrimEnd(s[..|s| - 1]) else s
  }

  /** Trimming the start removes a prefix made of white space, and no more. */
  lemma {:induction false} TrimStartRemovesLeadingSpace(s: string)
    ensures var r := TrimStart(s);
            |r| <= |s| && r == s[|s| - |r|..] &&
            (forall i :: 0 <= i < |s| - |r| ==> IsJsSpace(s[i])) &&
            (r == [] || !IsJsSpace(r[0]))
  {
    if s != [] && IsJsSpace(s[0]) {
      var t := s[1..];
      TrimStartRemovesLeadingSpace(t);
      var r := TrimStart(t);
      assert TrimStart(s) == r;
      assert t[|t| - |r|..] == s[|s| - |r|..];
      forall i | 0 <= i < |s| - |r| ensures IsJsSpace(s[i]) {
        if i > 0 {
          assert s[i] == t[i - 1];
        }
      }
    }
  }

  /** Trimming the end removes a suffix made of white space, and no more. */
  lemma {:induction false} TrimEndRemovesTrailingSpace(s: string)
    ensures var r := TrimEnd(s);
            |r| <= |s| && r == s[..|r|] &&
            (forall i :: |r| <= i < |s| ==> IsJsSpace(s[i])) &&
            (r == [] || !IsJsSpace(r[|r| - 1]))
  {
    if s != [] && IsJsSpace(s[|s| - 1]) {
      var t := s[..|s| - 1];
      TrimEndRemovesTrailingSpace(t);
      var r := TrimEnd(t);
      assert TrimEnd(s) == r;
      assert t[..|r|] == s[..|r|];
      forall i | |r| <= i < |s| ensures IsJsSpace(s[i]) {
        if i < |s| - 1 {
          assert s[i] == t[i];
        }
      }
    }
  }

  /** `s.trim()`. */
  function Trim(s: string): string
  {
    TrimEnd(TrimStart(s))
  }

  /** `v[0]` of a unit name: its first character, or the text of `undefined` for an empty name. */
  function Initial(unit: string): (r: string)
    ensures |r| > 0
  {
    if unit == [] then "undefined" else [unit[0]]
  }

  /** `components[v] + v[0]`: a shown component without the space the fold puts after it. */
  function Text(c: Component): (r: string)
    ensures |r| > 0
  {
    IntToString(c.magnitude) + Initial(c.unit)
  }

  /** What the fold appends for a shown component: its text and a space. */
  function Piece(c: Component): string
  {
    Text(c) + " "
  }

  /** The pieces of the shown components, in order. */
  function Pieces(cs: seq<Component>): string
  {
    if cs == [] then "" else Piece(cs[0]) + Pieces(cs[1..])
  }

  /** Index of the first component with a nonzero magnitude, or the number of components if none. */
  function FirstNonzero(comps: seq<Component>): (k: nat)
    ensures k <= |comps|
    ensures forall j :: 0 <= j < k ==> comps[j].magnitude == 0
    ensures k < |comps| ==> comps[k].magnitude != 0
  {
    if comps == [] || comps[0].magnitude != 0 then 0 else 1 + FirstNonzero(comps[1..])
  }

  function Min(a: int, b: int): int
  {
    if a < b then a else b
  }

  /**
   * The components the label shows: the first nonzero one and the one right after it, whatever
   * its magnitude; none when every magnitude is zero.
   */
  function Shown(comps: seq<Component>): (r: seq<Component>)
    ensures |r| <= 2
    ensures r == [] <==> forall j :: 0 <= j < |comps| ==> comps[j].magnitude == 0
  {
    var k := FirstNonzero(comps);
    comps[k..Min(k + 2, |comps|)]
  }

  /** `T+` once the launch time has come (a duration of zero or less), `T-` before it. */
  function Prefix(duration: int): string
  {
    if duration <= 0 then "T+" else "T-"
  }

  /** The countdown label for a duration in seconds and its components. */
  function Label(duration: int, comps: seq<Component>): (r: string)
    ensures |r| >= 2 && r[..2] == Prefix(duration)
    ensures r[..2] == "T+" <==> duration <= 0
  {
    var p := Prefix(duration);
    var r := p + Trim(Pieces(Shown(comps)));
    assert r[..2] == p;
    r
  }

  /** With every magnitude zero, nothing is shown and the label is the prefix alone. */
  lemma AllZeroLabel(duration: int, comps: seq<Component>)
    requires forall j :: 0 <= j < |comps| ==> comps[j].magnitude == 0
    ensures Label(duration, comps) == Prefix(duration)
  {
    assert Shown(comps) == [];
    assert Trim("") == "";
  }

  /** Trimming a text that starts with a non-space and ends with a non-space and one space. */
  lemma TrimOneTrailingSpace(t: string)
    requires |t| > 0 && !IsJsSpace(t[0]) && !IsJsSpace(t[|t| - 1])
    ensures Trim(t + " ") == t
  {
    var s := t + " ";
    assert TrimStart(s) == s;
    assert s[..|s| - 1] == t;
    assert TrimEnd(t) == t;
  }

  /** A shown component starts with its magnitude: a digit or a minus sign. */
  lemma TextStart(c: Component)
    ensures Text(c)[0] == IntToString(c.magnitude)[0]
    ensures !IsJsSpace(Text(c)[0])
  {
    assert Text(c)[0] == IntToString(c.magnitude)[0];
  }

  /** A shown component ends with its unit initial, or with the last letter of `undefined`. */
  lemma TextEnd(c: Component)
    requires c.unit == [] || !IsJsSpace(c.unit[0])
    ensures Text(c)[|Text(c)| - 1] == Initial(c.unit)[|Initial(c.unit)| - 1]
    ensures !IsJsSpace(Text(c)[|Text(c)| - 1])
  {
    var t := Text(c);
    assert t[|t| - 1] == Initial(c.unit)[|Initial(c.unit)| - 1];
  }

  /**
   * The label shows one or two components, each as magnitude and unit initial, separated by one
   * space and with no space after the last, as long as no unit name starts with white space.
   */
  lemma LabelFormat(duration: int, comps: seq<Component>)
    requires exists j :: 0 <= j < |comps| && comps[j].magnitude != 0
    requires forall j :: 0 <= j < |comps| ==> comps[j].unit == [] || !IsJsSpace(comps[j].unit[0])
    ensures var s := Shown(comps);
            (|s| == 1 ==> Label(duration, comps) == Prefix(duration) + Text(s[0])) &&
            (|s| == 2 ==> Label(duration, comps) == Prefix(duration) + (Text(s[0]) + " " + Text(s[1])))
  {
    var k := FirstNonzero(comps);
    ShownFrom(comps, k);
    TextStart(comps[k]);
    TextEnd(comps[k]);
    if k + 1 == |comps| {
      PiecesOne(comps[k]);
      TrimOneTrailingSpace(Text(comps[k]));
    } else {
      TextEnd(comps[k + 1]);
      PiecesTwo(comps[k], comps[k + 1]);
      var t := Text(comps[k]) + " " + Text(comps[k + 1]);
      assert Piece(comps[k]) + Piece(comps[k + 1]) == t + " ";
      assert t[0] == Text(comps[k])[0];
      assert t[|t| - 1] == Text(comps[k + 1])[|Text(comps[k + 1])| - 1];
      TrimOneTrailingSpace(t);
    }
  }

  /**
   * What the `reduce` of the label holds after visiting the first `i` components, the first
   * nonzero one being at `k`: nothing before it, then its piece, then its piece and the next one's.
   */
  ghost predicate FoldState(comps: seq<Component>, k: nat, i: nat, appends: nat, acc: string)
    requires k <= |comps| && i <= |comps|
  {
    if i <= k then appends == 0 && acc == ""
    else if i == k + 1 then appends == 1 && acc == Piece(comps[k])
    else appends == 2 && acc == Piece(comps[k]) + Piece(comps[k + 1])
  }

  /** A step of the `reduce` that appends: it does so exactly at the first two shown components. */
  lemma FoldTake(comps: seq<Component>, k: nat, i: nat, appends: nat, acc: string)
    requires k == FirstNonzero(comps) && i < |comps|
    requires FoldState(comps, k, i, appends, acc)
    requires (appends == 0 && comps[i].magnitude != 0) || appends == 1
    ensures FoldState(comps, k, i + 1, appends + 1, acc + Piece(comps[i]))
  {
    FoldStateCases(comps, k, i, appends, acc);
    if appends == 0 {
      FoldFirst(comps, k, acc);
    } else {
      FoldSecond(comps, k, acc);
    }
  }

  /** What the number of appended components says about the position of the fold. */
  lemma FoldStateCases(comps: seq<Component>, k: nat, i: nat, appends: nat, acc: string)
    requires k == FirstNonzero(comps) && i < |comps|
    requires FoldState(comps, k, i, appends, acc)
    ensures appends == 0 && comps[i].magnitude != 0 ==> i == k && acc == ""
    ensures appends == 1 ==> i == k + 1 && acc == Piece(comps[k])
  {
  }

  lemma FoldFirst(comps: seq<Component>, k: nat, acc: string)
    requires k < |comps| && acc == ""
    ensures FoldState(comps, k, k + 1, 1, acc + Piece(comps[k]))
  {
    assert acc + Piece(comps[k]) == Piece(comps[k]);
  }

  lemma FoldSecond(comps: seq<Component>, k: nat, acc: string)
    requires k + 1 < |comps| && acc == Piece(comps[k])
    ensures FoldState(comps, k, k + 2, 2, acc + Piece(comps[k + 1]))
  {
  }

  /** A step of the `reduce` that does not append: before the first nonzero component, or after two. */
  lemma FoldSkip(comps: seq<Component>, k: nat, i: nat, appends: nat, acc: string)
    requires k == FirstNonzero(comps) && i < |comps|
    requires FoldState(comps, k, i, appends, acc)
    requires !((appends == 0 && comps[i].magnitude != 0) || appends == 1)
    ensures FoldState(comps, k, i + 1, appends, acc)
  {
    if appends == 0 {
      assert i < k;
    } else {
      assert i >= k + 2;
    }
  }

  lemma PiecesOne(x: Component)
    ensures Pieces([x]) == Piece(x)
  {
    assert [x][1..] == [];
  }

  lemma PiecesTwo(x: Component, y: Component)
    ensures Pieces([x, y]) == Piece(x) + Piece(y)
  {
    assert [x, y][1..] == [y];
    PiecesOne(y);
  }

  /**
   * The components shown when the first nonzero one is at `k`: that one and the next, or that one
   * alone when it is the last.
   */
  lemma ShownFrom(comps: seq<Component>, k: nat)
    requires k <= |comps| && (k < |comps| ==> comps[k].magnitude != 0)
    requires forall j :: 0 <= j < k ==> comps[j].magnitude == 0
    ensures k == |comps| ==> Shown(comps) == []
    ensures k + 1 == |comps| ==> Shown(comps) == [comps[k]]
    ensures k + 1 < |comps| ==> Shown(comps) == [comps[k], comps[k + 1]]
  {
    var f := FirstNonzero(comps);
    assert f == k;
    var s := comps[k..Min(k + 2, |comps|)];
    assert Shown(comps) == s;
    if k + 1 == |comps| {
      assert |s| == 1 && s[0] == comps[k];
    } else if k + 1 < |comps| {
      assert |s| == 2 && s[0] == comps[k] && s[1] == comps[k + 1];
    }
  }

  /** After the last component, the `reduce` has produced the pieces of the shown components. */
  lemma FoldDone(comps: seq<Component>, appends: nat, acc: string)
    requires FoldState(comps, FirstNonzero(comps), |comps|, appends, acc)
    ensures acc == Pieces(Shown(comps))
  {
    var k := FirstNonzero(comps);
    ShownFrom(comps, k);
    if k < |comps| {
      PiecesOne(comps[k]);
      if k + 1 < |comps| {
        PiecesTwo(comps[k], comps[k + 1]);
      }
    }
  }

  /** The launch status view, with the label it caches once computed. */
  class LaunchStatusComponent {
    /** The cached label; "" (falsy, like the initial `undefined`) while none is cached. */
    var cache: string

    constructor ()
      ensures cache == ""
    {
      cache := "";
    }

    /**
     * `relativeTimeToLaunch()`: the cached label if there is one; otherwise folds over the
     * components, appending the first nonzero one and the one after it, prefixes the trimmed
     * result with the sign and caches it.
     */
    method RelativeTimeToLaunch(duration: int, comps: seq<Component>) returns (text: string)
      modifies this
      ensures old(cache) != "" ==> text == old(cache) && cache == old(cache)
      ensures old(cache) == "" ==> text == Label(duration, comps) && cache == text
    {
      if cache != "" {
        return cache;
      }
      ghost var k := FirstNonzero(comps);
      var appends := 0;
      var acc := "";
      var i := 0;
      while i < |comps|
        invariant 0 <= i <= |comps|
        invariant FoldState(comps, k, i, appends, acc)
      {
        var c := comps[i];
        if (appends == 0 && c.magnitude != 0) || appends == 1 {
          FoldTake(comps, k, i, appends, acc);
          appends := appends + 1;
          acc := acc + Piece(c);
        } else {
          FoldSkip(comps, k, i, appends, acc);
        }
        i := i + 1;
      }
      FoldDone(comps, appends, acc);
      text := Prefix(duration) + Trim(acc);
      cache := text;
    }
  }

  /** Once a label is cached, later calls return it even when the duration and components change. */
  method CachedLabelSticks(view: LaunchStatusComponent, d1: int, c1: seq<Component>, d2: int, c2: seq<Component>)
    returns (first: string, second: string)
    modifies view
    ensures first == second
    ensures old(view.cache) == "" ==> first == Label(d1, c1)
  {
    first := view.RelativeTimeToLaunch(d1, c1);
    second := view.RelativeTimeToLaunch(d2, c2);
  }
}
