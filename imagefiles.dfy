/** `get_image_files`: pick the JPEG files out of a directory listing. The
    listing itself (`os.listdir`) is an input. */
module ImageFiles {
  import opened PyRuntime

  /** The four accepted suffix spellings; the match is exact, so other
      capitalisations such as ".Jpg" are not accepted. */
  const Extensions: set<string> := {".jpg", ".jpeg", ".JPG", ".JPEG"}

  /** `Path(name).suffix in extensions`; `IsImageNameIff` characterises it. */
  predicate IsImageName(name: string) {
    Suffix(name) in Extensions
  }

  /** `name` is a non-empty stem followed by the extension `e`. */
  predicate HasExtension(name: string, e: string) {
    |e| < |name| && name[|name| - |e|..] == e
  }

  /** The elements of `s` that `keep` accepts, in order. */
  function Filter<T>(s: seq<T>, keep: T -> bool): seq<T> {
    if s == [] then []
    else
      var last := s[|s| - 1];
      Filter(s[..|s| - 1], keep) + (if keep(last) then [last] else [])
  }

  /** The files kept from `listing`, in listing order. */
  function ImageNames(listing: seq<string>): (r: seq<string>)
    ensures |r| <= |listing|
    ensures forall x :: x in r <==> x in listing && IsImageName(x)
  {
    FilterLength(listing, IsImageName);
    assert forall x :: x in Filter(listing, IsImageName) <==> x in listing && IsImageName(x) by {
      forall x ensures x in Filter(listing, IsImageName) <==> x in listing && IsImageName(x) {
        FilterMembers(listing, IsImageName, x);
      }
    }
    Filter(listing, IsImageName)
  }

  /** The loop of `get_image_files`: append each listed name whose suffix is
      one of the accepted spellings. */
  method GetImageFiles(listing: seq<string>) returns (imageFiles: seq<string>)
    ensures imageFiles == ImageNames(listing)
  {
    imageFiles := [];
    for i := 0 to |listing|
      invariant imageFiles == Filter(listing[..i], IsImageName)
    {
      assert listing[..i + 1][..i] == listing[..i];
      if Suffix(listing[i]) in Extensions {
        imageFiles := imageFiles + [listing[i]];
      }
    }
    assert listing[..|listing|] == listing;
  }

  /** A name is kept exactly when it ends in one of the four extensions with
      something in front of it: a bare ".jpg" is not kept. */
  lemma IsImageNameIff(name: string)
    ensures IsImageName(name) <==> exists e :: e in Extensions && HasExtension(name, e)
  {
    if e :| e in Extensions && HasExtension(name, e) {
      var k := |name| - |e|;
      assert e[0] == '.' && '.' !in e[1..] && |e| >= 4;
      assert name[k] == '.';
      var i := RFind(name, '.');
      assert i == k;
      assert Suffix(name) == e;
    }
    if IsImageName(name) {
      assert HasExtension(name, Suffix(name));
    }
  }

  /** The kept elements are exactly the elements that `keep` accepts. */
  lemma {:induction false} FilterMembers<T>(s: seq<T>, keep: T -> bool, x: T)
    ensures x in Filter(s, keep) <==> x in s && keep(x)
  {
    if s != [] {
      var init := s[..|s| - 1];
      FilterMembers(init, keep, x);
      assert s == init + [s[|s| - 1]];
    }
  }

  /** Filtering commutes with concatenation, so the kept elements keep their
      relative order. */
  lemma {:induction false} FilterAppend<T>(a: seq<T>, b: seq<T>, keep: T -> bool)
    ensures Filter(a + b, keep) == Filter(a, keep) + Filter(b, keep)
  {
    if b == [] {
      assert a + b == a;
    } else {
      var init := b[..|b| - 1];
      FilterAppend(a, init, keep);
      assert (a + b)[..|a + b| - 1] == a + init;
      assert (a + b)[|a + b| - 1] == b[|b| - 1];
    }
  }

  /** A one-element sequence keeps its element exactly when `keep` accepts it. */
  lemma FilterSingleton<T>(x: T, keep: T -> bool)
    ensures Filter([x], keep) == if keep(x) then [x] else []
  {
    assert [x][..0] == [];
  }

  /** Filtering never adds elements. */
  lemma {:induction false} FilterLength<T>(s: seq<T>, keep: T -> bool)
    ensures |Filter(s, keep)| <= |s|
  {
    if s != [] {
      FilterLength(s[..|s| - 1], keep);
    }
  }

  /** Examples of names that are kept. */
  lemma KeptExamples(name: string)
    requires name == "a.jpg" || name == "b.jpg" || name == "b.JPEG" || name == "x.tar.jpeg"
    ensures IsImageName(name)
  {
    IsImageNameIff(name);
    if name == "a.jpg" || name == "b.jpg" {
      assert HasExtension(name, ".jpg");
    } else if name == "b.JPEG" {
      assert HasExtension(name, ".JPEG");
    } else {
      assert HasExtension(name, ".jpeg");
    }
  }

  /** The suffix of a name whose last dot is at position k, neither first
      nor last. */
  lemma SuffixFromLastDot(name: string, k: nat)
    requires 0 < k < |name| - 1 && name[k] == '.'
    requires forall j :: k < j < |name| ==> name[j] != '.'
    ensures Suffix(name) == name[k..]
  {
    assert RFind(name, '.') == k;
  }

  /** Examples of names whose suffix is not one of the four spellings:
      another capitalisation, other formats. */
  lemma OtherSuffixExamples(name: string)
    requires name == "c.Jpg" || name == "d.png" || name == "notes.txt"
    ensures !IsImageName(name)
  {
    if name == "c.Jpg" {
      assert name[1] == '.' && name[2] != '.' && name[3] != '.' && name[4] != '.';
      SuffixFromLastDot(name, 1);
      assert name[1..][1] == 'J' && name[1..][2] == 'p';
    } else if name == "d.png" {
      assert name[1] == '.' && name[2] != '.' && name[3] != '.' && name[4] != '.';
      SuffixFromLastDot(name, 1);
      assert name[1..][1] == 'p';
    } else {
      assert name[5] == '.' && name[6] != '.' && name[7] != '.' && name[8] != '.';
      SuffixFromLastDot(name, 5);
      assert name[5..][1] == 't';
    }
  }

  /** Examples of names without a suffix: a bare extension (the dot is the
      first character) and a trailing dot. */
  lemma NoSuffixExamples(name: string)
    requires name == ".jpg" || name == "e.jpg."
    ensures !IsImageName(name)
  {
    if name == ".jpg" {
      assert name[0] == '.' && name[1] != '.' && name[2] != '.' && name[3] != '.';
      assert RFind(name, '.') == 0;
    } else {
      assert RFind(name, '.') == |name| - 1;
    }
  }
}
