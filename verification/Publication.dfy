/** What an upload may do to the server's files, moment by moment. */
module Publication {
  import opened Types
  import opened Peer
  import opened UploadName
  import opened DirOps
  import Naming = ObjectName

  /** The two paths of one upload and the image it carries. */
  datatype Target = Target(temp: string, published: string, content: Bytes, size: nat)

  /** Compared with `before`, files outside `gone` are still there and no path but the temporary
      one shows anything new, except the whole image, of the captured size, under its name. */
  ghost predicate Safe(before: Fs, after: Fs, t: Target, gone: set<string>) {
    && (forall x :: x in after.files && x != t.temp ==>
          || (x in before.files && after.files[x] == before.files[x])
          || (x == t.published && after.files[x] == t.content && |t.content| == t.size))
    && (forall x :: x in before.files && x != t.temp && x !in gone ==> x in after.files)
  }

  /** Every moment since was safe. */
  ghost predicate Safely(before: seq<Fs>, after: seq<Fs>, honest: bool, t: Target, gone: set<string>) {
    && before <= after
    && (honest && before != [] ==>
          forall k {:trigger after[k]} :: |before| <= k < |after| ==> Safe(before[|before| - 1], after[k], t, gone))
  }

  lemma SafelyStill(now: seq<Fs>, honest: bool, t: Target)
    ensures Safely(now, now, honest, t, {})
  {
  }

  /** A stretch that touches nothing but the temporary file is safe. */
  lemma SafelyConfined(start: seq<Fs>, mid: seq<Fs>, end: seq<Fs>, was: bool, honest: bool, t: Target, part: set<string>)
    requires Safely(start, mid, was, t, {}) && Confined(mid, end, honest, part) && part <= {t.temp}
    requires start != [] && (honest ==> was)
    ensures Safely(start, end, honest, t, {})
  {
    if honest {
      var base := start[|start| - 1];
      forall k | |start| <= k < |end| ensures Safe(base, end[k], t, {}) {
        assert Safe(base, mid[|mid| - 1], t, {});
        if k < |mid| {
          assert end[k] == mid[k];
        } else {
          assert SameBut(mid[|mid| - 1], end[k], part);
        }
      }
    }
  }

  /** Publishing is safe when the temporary file holds the whole image. */
  lemma SafelyPublished(start: seq<Fs>, mid: seq<Fs>, end: seq<Fs>, was: bool, honest: bool, t: Target)
    requires Safely(start, mid, was, t, {}) && start != [] && (honest ==> was)
    requires end == mid || (end != [] && end[..|end| - 1] == mid)
    requires honest && end != mid ==>
      var before, after := mid[|mid| - 1], end[|end| - 1];
      || after.files == before.files
      || (t.temp in before.files && !Exists(before, t.published) && after.files == Moved(before.files, t.temp, t.published)
          && before.files[t.temp] == t.content && |t.content| == t.size)
    ensures Safely(start, end, honest, t, {})
  {
    if honest {
      var base := start[|start| - 1];
      forall k | |start| <= k < |end| ensures Safe(base, end[k], t, {}) {
        assert Safe(base, mid[|mid| - 1], t, {});
        if k < |mid| {
          assert end[k] == mid[k];
        }
      }
    }
  }

  /** Removing uploads afterwards is safe. */
  lemma SafelyPruned(start: seq<Fs>, mid: seq<Fs>, end: seq<Fs>, was: bool, honest: bool, t: Target, gone: set<string>)
    requires Safely(start, mid, was, t, {}) && Pruned(mid, end, honest, gone) && start != [] && (honest ==> was)
    ensures Safely(start, end, honest, t, gone)
  {
    if honest {
      var base := start[|start| - 1];
      forall k | |start| <= k < |end| ensures Safe(base, end[k], t, gone) {
        assert Safe(base, mid[|mid| - 1], t, {});
        if k < |mid| {
          assert end[k] == mid[k];
        } else {
          assert OnlyRemoved(mid[|mid| - 1], end[k], gone);
        }
      }
    }
  }

  /** A run that has not got to the upload is safe whatever it would have uploaded. */
  lemma SafelyPrepared(start: seq<Fs>, end: seq<Fs>, was: bool, honest: bool, t: Target)
    requires Confined(start, end, honest, {}) && start != [] && (honest ==> was)
    ensures Safely(start, end, honest, t, {})
  {
    SafelyStill(start, was, t);
    SafelyConfined(start, start, end, was, honest, t, {});
  }

  /** A safe stretch after one that touched nothing. */
  lemma SafelyAfter(start: seq<Fs>, mid: seq<Fs>, end: seq<Fs>, was: bool, honest: bool, t: Target, gone: set<string>)
    requires Confined(start, mid, was, {}) && Safely(mid, end, honest, t, gone) && start != [] && (honest ==> was)
    ensures Safely(start, end, honest, t, gone)
  {
    if honest {
      var base := start[|start| - 1];
      forall k | |start| <= k < |end| ensures Safe(base, end[k], t, gone) {
        if k < |mid| {
          assert end[k] == mid[k] && SameBut(base, mid[k], {});
        } else {
          assert |start| < |mid| ==> SameBut(base, mid[|mid| - 1], {});
          assert Safe(mid[|mid| - 1], end[k], t, gone);
        }
      }
    }
  }

  lemma SafelySeen(start: seq<Fs>, end: seq<Fs>, honest: bool, t: Target, gone: set<string>)
    requires Safely(start, end, honest, t, gone) && start != []
    ensures start <= end && end[|start| - 1] == start[|start| - 1]
  {
  }

  // ----- names ------------------------------------------------------------------------------

  /** The last component of the path is an upload name. */
  ghost predicate LooksPublished(path: string) {
    exists dir, name :: path == dir + "/" + name && IsUploadName(name)
  }

  lemma NoSlash(name: string)
    requires IsUploadName(name)
    ensures '/' !in name
  {
    forall i | 0 <= i < |name| ensures name[i] != '/' {
      var n := |name|;
      if i < 5 {
        assert name[i] == name[..5][i];
      } else if n - 4 <= i {
        assert name[i] == name[n - 4..][i - (n - 4)];
      }
    }
  }

  lemma SlashInside(a: string, x: string, b: string, y: string)
    requires a + "/" + x == b + "/" + y && |a| < |b|
    ensures '/' in x
  {
    var p := a + "/" + x;
    assert p[|b|] == '/' && p[|b|] == x[|b| - |a| - 1];
  }

  lemma SameLastComponent(a: string, x: string, b: string, y: string)
    requires a + "/" + x == b + "/" + y && '/' !in x && '/' !in y
    ensures x == y
  {
    if |a| < |b| {
      SlashInside(a, x, b, y);
      assert false;
    } else if |b| < |a| {
      SlashInside(b, y, a, x);
      assert false;
    }
    assert x == (a + "/" + x)[|a| + 1..] && y == (b + "/" + y)[|b| + 1..];
  }

  /** The temporary path of an upload never looks published, its final path always does. */
  lemma TempNeverLooksPublished(dir: string, c: Naming.Civil, suffix: nat)
    requires Naming.InRange(c)
    ensures !LooksPublished(dir + "/.tmp-" + Naming.Name(c, suffix))
    ensures LooksPublished(dir + "/" + Naming.Name(c, suffix))
  {
    var name := Naming.Name(c, suffix);
    Naming.NameIsRecognised(c, suffix);
    NoSlash(name);
    var temp := ".tmp-" + name;
    assert '/' !in temp;
    assert dir + "/.tmp-" + name == dir + "/" + temp;
    if LooksPublished(dir + "/" + temp) {
      var d, n :| dir + "/" + temp == d + "/" + n && IsUploadName(n);
      NoSlash(n);
      SameLastComponent(dir, temp, d, n);
      assert false;
    }
  }

  /** So at every moment of a run, what newly appears under an upload name is the whole image. */
  lemma OnlyWholeImagesAppear(start: seq<Fs>, end: seq<Fs>, t: Target, gone: set<string>, k: nat, path: string)
    requires Safely(start, end, true, t, gone) && start != [] && |start| <= k < |end|
    requires !LooksPublished(t.temp)
    requires path in end[k].files && LooksPublished(path)
    requires path !in start[|start| - 1].files
    ensures path == t.published && end[k].files[path] == t.content && |t.content| == t.size
  {
    assert Safe(start[|start| - 1], end[k], t, gone);
  }
}
