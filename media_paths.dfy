/** The path rewriting of MediaController's `remove`, `details` and
    `preview`: PHP's `str_replace` with an empty replacement, which scans
    left to right and deletes every non-overlapping occurrence in one pass.
    The storage disk, the file manager, the repository and Glide that
    receive the rewritten path are not part of this model. */
module MediaPaths {
  import opened Common

  /** The needle starts at position i of s. */
  predicate OccursAt(s: string, p: string, i: nat) {
    i + |p| <= |s| && s[i..i + |p|] == p
  }

  ghost predicate Occurs(s: string, p: string) {
    exists i: nat :: OccursAt(s, p, i)
  }

  /** `str_replace($p, '', $s)`. */
  function Strip(s: string, p: string): string
    requires |p| > 0
    decreases |s|
  {
    if |s| < |p| then s
    else if s[..|p|] == p then Strip(s[|p|..], p)
    else [s[0]] + Strip(s[1..], p)
  }

  /** Stripping never lengthens a path. */
  lemma {:induction false} StripBound(s: string, p: string)
    requires |p| > 0
    ensures |Strip(s, p)| <= |s|
    decreases |s|
  {
    if |s| >= |p| {
      if s[..|p|] == p {
        StripBound(s[|p|..], p);
      } else {
        StripBound(s[1..], p);
      }
    }
  }

  /** A path without the needle is returned unchanged. */
  lemma {:induction false} StripNoOccurrence(s: string, p: string)
    requires |p| > 0 && !Occurs(s, p)
    ensures Strip(s, p) == s
    decreases |s|
  {
    if |s| >= |p| {
      assert !OccursAt(s, p, 0);
      assert !Occurs(s[1..], p) by {
        forall i: nat | OccursAt(s[1..], p, i)
          ensures false
        {
          assert s[1..][i..i + |p|] == s[i + 1..i + 1 + |p|];
          assert OccursAt(s, p, i + 1);
        }
      }
      StripNoOccurrence(s[1..], p);
    }
  }

  /** A path holding the needle loses at least one copy of it. */
  lemma {:induction false} StripOccurrence(s: string, p: string)
    requires |p| > 0 && Occurs(s, p)
    ensures |Strip(s, p)| <= |s| - |p|
    decreases |s|
  {
    var i: nat :| OccursAt(s, p, i);
    if s[..|p|] == p {
      StripBound(s[|p|..], p);
    } else {
      assert i > 0;
      assert s[1..][i - 1..i - 1 + |p|] == s[i..i + |p|];
      assert OccursAt(s[1..], p, i - 1);
      StripOccurrence(s[1..], p);
    }
  }

  /** The scan, for every path: up to the first occurrence of the needle
      the path is copied, that occurrence is deleted, and the scan resumes
      right after it. With StripNoOccurrence for the rest, this says that
      every occurrence found left to right, without overlap, is deleted. */
  lemma StripFirstOccurrence(s: string, p: string, i: nat)
    requires |p| > 0 && OccursAt(s, p, i)
    requires forall j: nat :: j < i ==> !OccursAt(s, p, j)
    ensures Strip(s, p) == s[..i] + Strip(s[i + |p|..], p)
  {
    StripScanFrom(s, p, 0, i);
    assert s[0..] == s;
    assert s[0..i] == s[..i];
  }

  /** The scan from position k of the path on: the characters from k up to
      the first occurrence at i are copied, and the occurrence is deleted. */
  lemma {:induction false} StripScanFrom(s: string, p: string, k: nat, i: nat)
    requires |p| > 0 && k <= i && OccursAt(s, p, i)
    requires forall j: nat :: k <= j < i ==> !OccursAt(s, p, j)
    ensures Strip(s[k..], p) == s[k..i] + Strip(s[i + |p|..], p)
    decreases i - k
  {
    if k == i {
      StripScanAt(s, p, i);
    } else {
      StripScanFrom(s, p, k + 1, i);
      StripCopyAt(s, p, k, i);
      Glue(Strip(s[k..], p), s[k], Strip(s[k + 1..], p), s[k + 1..i], Strip(s[i + |p|..], p), s[k..i]);
    }
  }

  /** The occurrence at i itself is deleted. */
  lemma StripScanAt(s: string, p: string, i: nat)
    requires |p| > 0 && OccursAt(s, p, i)
    ensures Strip(s[i..], p) == s[i..i] + Strip(s[i + |p|..], p)
  {
    assert s[i..][..|p|] == s[i..i + |p|];
    assert s[i..][|p|..] == s[i + |p|..];
    StripMatch(s[i..], p);
    assert s[i..i] + Strip(s[i + |p|..], p) == Strip(s[i + |p|..], p);
  }

  /** A position k before the occurrence at i that starts none is copied. */
  lemma StripCopyAt(s: string, p: string, k: nat, i: nat)
    requires |p| > 0 && k < i && OccursAt(s, p, i) && !OccursAt(s, p, k)
    ensures Strip(s[k..], p) == [s[k]] + Strip(s[k + 1..], p)
    ensures s[k..i] == [s[k]] + s[k + 1..i]
  {
    var t := s[k..];
    assert t[..|p|] == s[k..k + |p|];
    assert t[0] == s[k] && t[1..] == s[k + 1..];
  }

  /** Sequence algebra for one copied element. */
  lemma Glue<T>(whole: seq<T>, x: T, inner: seq<T>, pre: seq<T>, tail: seq<T>, prefix: seq<T>)
    requires whole == [x] + inner && inner == pre + tail && prefix == [x] + pre
    ensures whole == prefix + tail
  {
  }

  /** A path is left as it is exactly when the needle does not occur in it. */
  lemma StripUnchangedIff(s: string, p: string)
    requires |p| > 0
    ensures Strip(s, p) == s <==> !Occurs(s, p)
  {
    if Occurs(s, p) {
      StripOccurrence(s, p);
    } else {
      StripNoOccurrence(s, p);
    }
  }

  /** `remove`: the path with every `storage` deleted, and whether the disk
      holds something under it, which decides whether the file manager is
      asked to delete it. `contents` stands for the storage disk's `get`. */
  function RemoveTarget(mediaRoute: string, contents: string -> string): Option<string> {
    var path := Strip(mediaRoute, "storage");
    if Truthy(contents(path)) then Some(path) else None
  }

  /** `details`: the path looked up with every `/storage` deleted. */
  function DetailsPath(path: string): string {
    Strip(path, "/storage")
  }

  /** `preview`: the path Glide renders with every `/storage/media/` deleted. */
  function PreviewPath(path: string): string {
    Strip(path, "/storage/media/")
  }

  /** The file manager is asked to delete exactly when the disk holds
      something under the stripped path, and that is the path it gets;
      a route without `storage` is used as given. */
  lemma RemoveTargetSpec(mediaRoute: string, contents: string -> string)
    ensures RemoveTarget(mediaRoute, contents).Some? <==> Truthy(contents(Strip(mediaRoute, "storage")))
    ensures RemoveTarget(mediaRoute, contents).Some? ==>
      RemoveTarget(mediaRoute, contents).value == Strip(mediaRoute, "storage") &&
      (!Occurs(mediaRoute, "storage") ==> RemoveTarget(mediaRoute, contents).value == mediaRoute)
  {
    if !Occurs(mediaRoute, "storage") {
      StripNoOccurrence(mediaRoute, "storage");
    }
  }

  /** One step of the scan: a match at the front is deleted. */
  lemma StripMatch(s: string, p: string)
    requires 0 < |p| <= |s| && s[..|p|] == p
    ensures Strip(s, p) == Strip(s[|p|..], p)
  {
  }

  /** One step of the scan: a mismatch at offset j keeps the first character. */
  lemma StripSkip(s: string, p: string, j: nat)
    requires j < |p| <= |s| && s[j] != p[j]
    ensures Strip(s, p) == [s[0]] + Strip(s[1..], p)
  {
    assert s[..|p|][j] != p[j];
  }

  /** A path missing any one character of the needle is unchanged. */
  lemma StripMissingChar(s: string, p: string, j: nat)
    requires j < |p| && p[j] !in s
    ensures Strip(s, p) == s
  {
    assert !Occurs(s, p);
    StripNoOccurrence(s, p);
  }

  /** The needle at the front is deleted and the scan goes on after it. */
  lemma StripFront(p: string, rest: string)
    requires |p| > 0
    ensures Strip(p + rest, p) == Strip(rest, p)
  {
    assert (p + rest)[..|p|] == p;
    assert (p + rest)[|p|..] == rest;
  }

  /** Text holding no first character of the needle is kept as it is, and
      the scan resumes after it. */
  lemma {:induction false} StripKeep(x: string, rest: string, p: string)
    requires |p| > 0 && p[0] !in x
    ensures Strip(x + rest, p) == x + Strip(rest, p)
    decreases |x|
  {
    if x == [] {
      assert x + rest == rest;
    } else {
      var s := x + rest;
      assert s[0] == x[0];
      if |s| >= |p| {
        StripSkip(s, p, 0);
      }
      assert s[1..] == x[1..] + rest;
      StripKeep(x[1..], rest, p);
      assert x == [x[0]] + x[1..];
    }
  }

  /** Every occurrence goes, not only a leading one: `storage` inside a file
      name is deleted too, so `storage/<dir>/storage<ext>` becomes
      `/<dir>/<ext>`. */
  lemma RemoveEveryOccurrence(dir: string, ext: string)
    requires 's' !in dir && 's' !in ext
    ensures Strip("storage" + dir + "storage" + ext, "storage") == dir + ext
  {
    var p := "storage";
    assert p + dir + p + ext == p + (dir + (p + ext));
    StripFront(p, dir + (p + ext));
    StripKeep(dir, p + ext, p);
    StripFront(p, ext);
    StripMissingChar(ext, p, 0);
  }

  /** One pass only: deleting the inner `storage` of `ststorageorage`
      joins its remains into a new `storage`, which stays. */
  lemma SinglePass(route: string)
    requires route == "ststorageorage"
    ensures Strip(route, "storage") == "storage"
    ensures Occurs(Strip(route, "storage"), "storage")
  {
    var p := "storage";
    StripSkip(route, p, 2);
    assert route[1..] == "tstorageorage";
    StripSkip(route[1..], p, 0);
    assert route[1..][1..] == route[2..];
    assert route[2..][..7] == p;
    StripMatch(route[2..], p);
    assert route[2..][7..] == "orage";
    assert OccursAt("storage", p, 0);
  }

  /** `details` keeps the `/media/` directory, `preview` drops it. */
  lemma DetailsPreviewExample(name: string)
    requires 's' !in name && '/' !in name
    ensures DetailsPath("/storage/media/" + name) == "/media/" + name
    ensures PreviewPath("/storage/media/" + name) == name
  {
    var url := "/storage/media/" + name;
    assert url == "/storage" + ("/media/" + name);
    StripFront("/storage", "/media/" + name);
    assert 's' !in "/media/" + name;
    StripMissingChar("/media/" + name, "/storage", 1);
    StripFront("/storage/media/", name);
    StripMissingChar(name, "/storage/media/", 0);
  }
}
