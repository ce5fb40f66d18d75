/**
 * The Cloudinary public id the controllers derive from a stored image URL before
 * destroying it: `url.split("/").pop().split(".")[0]`.
 */
module ImageIds {

  /** The joining of `parts` with `sep` between neighbours: the inverse of `Split`. */
  function Join(parts: seq<string>, sep: char): string
    requires |parts| > 0
  {
    if |parts| == 1 then parts[0] else parts[0] + [sep] + Join(parts[1..], sep)
  }

  /**
   * `String.prototype.split` with a one-character separator: the maximal separator-free
   * pieces, empty ones included ("a//b" gives ["a", "", "b"], "" gives [""]).
   */
  function Split(s: string, sep: char): (parts: seq<string>)
    ensures |parts| > 0
    ensures forall k | 0 <= k < |parts| :: sep !in parts[k]
    ensures forall k, c | 0 <= k < |parts| && c in parts[k] :: c in s
  {
    if s == [] then [""]
    else
      var rest := Split(s[1..], sep);
      if s[0] == sep then
        assert forall k | 1 <= k < |rest| + 1 :: ([""] + rest)[k] == rest[k - 1];
        assert s == [s[0]] + s[1..];
        [""] + rest
      else
        var parts := [[s[0]] + rest[0]] + rest[1..];
        assert forall k | 1 <= k < |parts| :: parts[k] == rest[k];
        assert s == [s[0]] + s[1..];
        assert forall c | c in parts[0] :: c == s[0] || c in rest[0];
        parts
  }

  /** Joining the pieces with the separator gives back the string. */
  lemma {:induction false} JoinSplit(s: string, sep: char)
    ensures Join(Split(s, sep), sep) == s
  {
    if s != [] {
      JoinSplit(s[1..], sep);
      var rest := Split(s[1..], sep);
      assert s == [s[0]] + s[1..];
      if s[0] == sep {
        assert ([""] + rest)[1..] == rest;
      } else {
        var parts := [[s[0]] + rest[0]] + rest[1..];
        assert parts[1..] == rest[1..];
        if |rest| > 1 {
          assert Join(rest, sep) == rest[0] + [sep] + Join(rest[1..], sep);
          assert Join(parts, sep) == [s[0]] + rest[0] + [sep] + Join(rest[1..], sep);
        }
      }
    }
  }

  /** `Array.prototype.pop` on a non-empty array: its last element. */
  function Last<T>(s: seq<T>): T
    requires |s| > 0
  {
    s[|s| - 1]
  }

  /** The public id of an image URL: the last '/'-separated segment, cut at its first '.'. */
  function ImageId(url: string): (id: string)
    ensures '/' !in id && '.' !in id
  {
    Split(Last(Split(url, '/')), '.')[0]
  }

  /** A separator splits the string into the pieces of its two sides. */
  lemma {:induction false} SplitAtSeparator(a: string, b: string, sep: char)
    ensures Split(a + [sep] + b, sep) == Split(a, sep) + Split(b, sep)
  {
    if a == [] {
      assert a + [sep] + b == [sep] + b;
      assert ([sep] + b)[1..] == b;
    } else {
      assert (a + [sep] + b)[1..] == a[1..] + [sep] + b;
      SplitAtSeparator(a[1..], b, sep);
    }
  }

  /** A separator-free string is a single piece. */
  lemma {:induction false} SplitWithoutSeparator(w: string, sep: char)
    requires sep !in w
    ensures Split(w, sep) == [w]
  {
    if w != [] {
      SplitWithoutSeparator(w[1..], sep);
      assert w == [w[0]] + w[1..];
    }
  }

  /** After a directory ending in '/', the last '/'-piece is the separator-free rest. */
  lemma LastSegment(dir: string, w: string)
    requires dir == [] || dir[|dir| - 1] == '/'
    requires '/' !in w
    ensures Last(Split(dir + w, '/')) == w
  {
    SplitWithoutSeparator(w, '/');
    if dir != [] {
      var d := dir[..|dir| - 1];
      assert dir + w == d + ['/'] + w;
      SplitAtSeparator(d, w, '/');
    } else {
      assert dir + w == w;
    }
  }

  /** A '.'-free stem followed by an extension that is empty or starts with '.' is the first '.'-piece. */
  lemma FirstPiece(stem: string, ext: string)
    requires '.' !in stem
    requires ext == [] || ext[0] == '.'
    ensures Split(stem + ext, '.')[0] == stem
  {
    SplitWithoutSeparator(stem, '.');
    if ext != [] {
      assert stem + ext == stem + ['.'] + ext[1..];
      SplitAtSeparator(stem, ext[1..], '.');
    } else {
      assert stem + ext == stem;
    }
  }

  /**
   * For a URL of the shape `<dir>/<stem><ext>` (no '/' after `dir`, no '.' in `stem`, `ext`
   * empty or starting with '.'), the derived id is exactly `stem`.
   */
  lemma ImageIdIsStem(dir: string, stem: string, ext: string)
    requires dir == [] || dir[|dir| - 1] == '/'
    requires '/' !in stem + ext && '.' !in stem
    requires ext == [] || ext[0] == '.'
    ensures ImageId(dir + stem + ext) == stem
  {
    assert dir + stem + ext == dir + (stem + ext);
    LastSegment(dir, stem + ext);
    FirstPiece(stem, ext);
  }

  /** A typical Cloudinary delivery URL yields its public id. */
  lemma CloudinaryUrlExample()
    ensures ImageId("https://res.cloudinary.com/demo/image/upload/v1/sample.jpg") == "sample"
  {
    ImageIdIsStem("https://res.cloudinary.com/demo/image/upload/v1/", "sample", ".jpg");
    assert "https://res.cloudinary.com/demo/image/upload/v1/" + "sample" + ".jpg"
      == "https://res.cloudinary.com/demo/image/upload/v1/sample.jpg";
  }
}
