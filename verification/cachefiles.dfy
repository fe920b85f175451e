/**
 * Cache file names: the `.icecache` test, the frame number taken from the last run of
 * digits in a name, and `get_files`, which orders a list of names by frame number and
 * reports the first and last frame.
 */
module CacheFiles {
  import opened Results
  import opened Decimal

  const Extension: string := ".icecache"

  /** `is_valid_file`: the name ends with `.icecache`. */
  predicate IsValidFile(name: string) {
    |name| >= |Extension| && name[|name| - |Extension|..] == Extension
  }

  /** A name is a cache file exactly when it is some stem followed by `.icecache`. */
  lemma ValidFileIsStemAndExtension(name: string, stem: string)
    ensures IsValidFile(stem + Extension)
    ensures IsValidFile(name) ==> name == name[..|name| - |Extension|] + Extension
  {
    assert (stem + Extension)[|stem|..] == Extension;
  }

  predicate NoDigits(s: string) {
    forall i :: 0 <= i < |s| ==> !IsDigit(s[i])
  }

  /** The length of the run of digits that ends `name`. */
  function TrailingDigits(name: string): (k: nat)
    ensures k <= |name| && AllDigits(name[|name| - k..])
    ensures k < |name| ==> !IsDigit(name[|name| - k - 1])
    decreases |name|
  {
    if name != [] && IsDigit(name[|name| - 1]) then
      var k := TrailingDigits(name[..|name| - 1]);
      assert name[|name| - (k + 1)..] == name[..|name| - 1][|name| - 1 - k..] + [name[|name| - 1]];
      k + 1
    else 0
  }

  /**
   * `re.findall(r'\d+', name)[-1]` read as a number: the value of the last maximal
   * run of digits, None when the name has no digit.
   */
  function LastNumber(name: string): (r: Option<nat>)
    decreases |name|
  {
    if name == [] then None
    else if IsDigit(name[|name| - 1]) then Some(Value(name[|name| - TrailingDigits(name)..]))
    else LastNumber(name[..|name| - 1])
  }

  /** Digits not preceded by a digit are the whole trailing run. */
  lemma {:induction false} TrailingRun(pre: string, digits: string)
    requires AllDigits(digits) && (pre == [] || !IsDigit(pre[|pre| - 1]))
    ensures TrailingDigits(pre + digits) == |digits|
    decreases |digits|
  {
    if digits != [] {
      var d' := digits[..|digits| - 1];
      assert (pre + digits)[..|pre + digits| - 1] == pre + d';
      TrailingRun(pre, d');
    } else {
      assert pre + digits == pre;
    }
  }

  /**
   * A name made of anything ending in a non-digit, a run of digits, then no digit at
   * all has that run's value as its number.
   */
  lemma {:induction false} LastNumberOf(pre: string, digits: string, post: string)
    requires |digits| > 0 && AllDigits(digits) && NoDigits(post)
    requires pre == [] || !IsDigit(pre[|pre| - 1])
    ensures LastNumber(pre + digits + post) == Some(Value(digits))
    decreases |post|
  {
    var name := pre + digits + post;
    if post == [] {
      assert name == pre + digits;
      TrailingRun(pre, digits);
      assert name[|name| - |digits|..] == digits;
    } else {
      assert !IsDigit(post[|post| - 1]);
      assert name[..|name| - 1] == pre + digits + post[..|post| - 1];
      LastNumberOf(pre, digits, post[..|post| - 1]);
    }
  }

  /** A name has a number exactly when it holds a digit. */
  lemma {:induction false} LastNumberNone(name: string)
    ensures LastNumber(name).None? <==> NoDigits(name)
    decreases |name|
  {
    if name != [] && !IsDigit(name[|name| - 1]) {
      var init := name[..|name| - 1];
      LastNumberNone(init);
      assert NoDigits(name) <==> NoDigits(init) by {
        if NoDigits(init) {
          forall i | 0 <= i < |name| ensures !IsDigit(name[i]) {
            if i < |name| - 1 {
              assert name[i] == init[i];
            }
          }
        }
      }
    }
  }

  // ---- Ordering by frame number ----

  /** The frame number of a name that has one. */
  function Frame(name: string): nat {
    match LastNumber(name)
    case Some(n) => n
    case None => 0
  }

  predicate SortedByFrame(xs: seq<string>) {
    forall i, j :: 0 <= i < j < |xs| ==> Frame(xs[i]) <= Frame(xs[j])
  }

  /** No name in `xs` has a frame above `f`. */
  predicate FramesUpTo(xs: seq<string>, f: nat) {
    forall i :: 0 <= i < |xs| ==> Frame(xs[i]) <= f
  }

  /** A name whose frame is at least every frame of sorted names can follow them. */
  lemma SortedSnoc(xs: seq<string>, y: string)
    requires SortedByFrame(xs) && FramesUpTo(xs, Frame(y))
    ensures SortedByFrame(xs + [y])
  {
  }

  /** `x` placed into names ordered by frame, after every name whose frame is no larger. */
  function Insert(x: string, ys: seq<string>): (r: seq<string>)
    requires SortedByFrame(ys)
    ensures SortedByFrame(r) && multiset(r) == multiset(ys) + multiset{x}
    ensures forall f: nat :: FramesUpTo(ys, f) && Frame(x) <= f ==> FramesUpTo(r, f)
    decreases |ys|
  {
    if ys == [] then [x]
    else if Frame(ys[|ys| - 1]) <= Frame(x) then
      SortedSnoc(ys, x);
      ys + [x]
    else
      var init, last := ys[..|ys| - 1], ys[|ys| - 1];
      assert ys == init + [last];
      var r' := Insert(x, init);
      assert FramesUpTo(r', Frame(last));
      SortedSnoc(r', last);
      r' + [last]
  }

  /** The names ordered by frame number: an insertion sort that keeps names of equal frames in their given order. */
  function SortByFrame(xs: seq<string>): (r: seq<string>)
    ensures SortedByFrame(r) && multiset(r) == multiset(xs)
    decreases |xs|
  {
    if xs == [] then []
    else
      assert xs == xs[..|xs| - 1] + [xs[|xs| - 1]];
      Insert(xs[|xs| - 1], SortByFrame(xs[..|xs| - 1]))
  }

  /** The names with frame number `f`, in order. */
  function WithFrame(xs: seq<string>, f: nat): seq<string>
    decreases |xs|
  {
    if xs == [] then []
    else WithFrame(xs[..|xs| - 1], f) + (if Frame(xs[|xs| - 1]) == f then [xs[|xs| - 1]] else [])
  }

  lemma WithFrameSnoc(xs: seq<string>, y: string, f: nat)
    ensures WithFrame(xs + [y], f) == WithFrame(xs, f) + (if Frame(y) == f then [y] else [])
  {
    assert (xs + [y])[..|xs|] == xs;
  }

  /** A name of a later frame appended behind `x` does not change where `x` stands among its own frame. */
  lemma PassLater(a: seq<string>, b: seq<string>, x: string, later: string, f: nat)
    requires Frame(x) < Frame(later)
    requires WithFrame(a, f) == WithFrame(b, f) + (if Frame(x) == f then [x] else [])
    ensures WithFrame(a + [later], f) == WithFrame(b + [later], f) + (if Frame(x) == f then [x] else [])
  {
    WithFrameSnoc(a, later, f);
    WithFrameSnoc(b, later, f);
  }

  /** Inserting `x` puts it after every name of its own frame. */
  lemma {:induction false} InsertStable(x: string, ys: seq<string>, f: nat)
    requires SortedByFrame(ys)
    ensures WithFrame(Insert(x, ys), f) == WithFrame(ys, f) + (if Frame(x) == f then [x] else [])
    decreases |ys|
  {
    if ys == [] {
      WithFrameSnoc([], x, f);
      assert [] + [x] == [x];
    } else if Frame(ys[|ys| - 1]) <= Frame(x) {
      WithFrameSnoc(ys, x, f);
    } else {
      var init, last := ys[..|ys| - 1], ys[|ys| - 1];
      assert ys == init + [last];
      InsertStable(x, init, f);
      PassLater(Insert(x, init), init, x, last, f);
      assert Insert(x, ys) == Insert(x, init) + [last];
    }
  }

  /** Sorting keeps, for every frame number, the names of that frame in their given order. */
  lemma {:induction false} SortStable(xs: seq<string>, f: nat)
    ensures WithFrame(SortByFrame(xs), f) == WithFrame(xs, f)
    decreases |xs|
  {
    if xs != [] {
      SortStable(xs[..|xs| - 1], f);
      InsertStable(xs[|xs| - 1], SortByFrame(xs[..|xs| - 1]), f);
    }
  }

  // ---- get_files ----

  /** What `get_files` returns: the empty tuple, or the sorted names with the first and last frame. */
  datatype Listing = NoFiles | Frames(files: seq<string>, start: nat, end: nat)

  /**
   * `get_files`: sort by frame number; nothing for no names; otherwise the first
   * name's frame as the start and the last name's as the end, the end replaced by
   * `start + len(files) - 1` when it exceeds the number of names. A name without
   * digits makes the frame lookup raise: None.
   */
  function GetFiles(files: seq<string>): (r: Option<Listing>)
    ensures r.Some? && files != [] ==> r.value.Frames? && |r.value.files| == |files|
  {
    if files == [] then Some(NoFiles)
    else if exists i :: 0 <= i < |files| && LastNumber(files[i]).None? then None
    else
      var sorted := SortByFrame(files);
      assert |sorted| == |multiset(sorted)| == |files|;
      var start, last := Frame(sorted[0]), Frame(sorted[|sorted| - 1]);
      Some(Frames(sorted, start, if last > |files| then start + |files| - 1 else last))
  }

  /**
   * `get_files` fails exactly when a name has no digit, and otherwise returns the
   * same names ordered by frame, equal frames in their given order, with the least
   * frame as the start and the greatest as the end unless that exceeds the count.
   */
  lemma GetFilesSpec(files: seq<string>)
    ensures GetFiles(files) == Some(NoFiles) <==> files == []
    ensures GetFiles(files).None? <==> exists i :: 0 <= i < |files| && NoDigits(files[i])
    ensures GetFiles(files).Some? && files != [] ==>
      var l := GetFiles(files).value;
      var hi := Frame(l.files[|files| - 1]);
      && l.Frames? && |l.files| == |files|
      && SortedByFrame(l.files) && multiset(l.files) == multiset(files)
      && (forall f :: WithFrame(l.files, f) == WithFrame(files, f))
      && (forall i :: 0 <= i < |files| ==> l.start <= Frame(files[i]) <= hi)
      && (exists i :: 0 <= i < |files| && Frame(files[i]) == l.start)
      && (exists i :: 0 <= i < |files| && Frame(files[i]) == hi)
      && l.end == (if hi > |files| then l.start + |files| - 1 else hi)
  {
    forall i | 0 <= i < |files| ensures LastNumber(files[i]).None? <==> NoDigits(files[i]) {
      LastNumberNone(files[i]);
    }
    if GetFiles(files).Some? && files != [] {
      var sorted := SortByFrame(files);
      assert |sorted| == |multiset(sorted)| == |files|;
      forall f ensures WithFrame(sorted, f) == WithFrame(files, f) {
        SortStable(files, f);
      }
      forall i | 0 <= i < |files| ensures Frame(sorted[0]) <= Frame(files[i]) <= Frame(sorted[|files| - 1]) {
        assert files[i] in multiset(sorted);
        var j :| 0 <= j < |sorted| && sorted[j] == files[i];
      }
      assert sorted[0] in multiset(files) && sorted[|files| - 1] in multiset(files);
      var i0 :| 0 <= i0 < |files| && files[i0] == sorted[0];
      var i1 :| 0 <= i1 < |files| && files[i1] == sorted[|files| - 1];
    }
  }

  /** When the frames run one after the other from the start, the end is the last frame. */
  lemma ConsecutiveFramesEnd(files: seq<string>)
    requires GetFiles(files).Some? && files != []
    requires var l := GetFiles(files).value; forall i :: 0 <= i < |l.files| ==> Frame(l.files[i]) == l.start + i
    ensures GetFiles(files).value.end == Frame(GetFiles(files).value.files[|files| - 1]) == GetFiles(files).value.start + |files| - 1
  {
    GetFilesSpec(files);
  }
}
