/** Worked cases of the render collector's behaviour on concrete inputs. */
module Examples {
  import opened PyStr
  import opened HashRuns
  import opened PosixPath
  import opened ExpectedFiles

  /** `range(1, 11, 3)` visits 1, 4, 7 and 10. */
  lemma StepThree()
    ensures Frames(1, 10, 3) == [1, 4, 7, 10]
  {
  }

  /** A frame is padded to four characters but never cut. */
  lemma Padding()
    ensures FrameString(7) == "0007"
    ensures FrameString(10005) == "10005"
    ensures FrameString(-5) == "00-5"
  {
  }

  /** Every run of `#` is replaced, whatever its length. */
  lemma EveryRun()
    ensures Substitute("a##b#c", "0001") == "a0001b0001c"
  {
  }

  /** `dirname` strips the slashes before the file name. */
  lemma DirnameStrips()
    ensures Dirname("/a//b") == "/a"
  {
    assert RFind("/a//b", '/') == 3;
    assert Head("/a//b") == "/a//";
    assert RStrip("/a//", '/') == "/a";
  }

  /** `dirname` keeps a root made only of slashes. */
  lemma DirnameKeepsRoot()
    ensures Dirname("//b") == "//"
  {
    assert RFind("//b", '/') == 1;
    assert Head("//b") == "//";
  }

  /** `join` adds a separator only when one is missing. */
  lemma JoinCases()
    ensures Join("", "b") == "b" && Join("a/", "b") == "a/b" && Join("a", "b") == "a/b"
  {
  }

  /** `dirname` and `basename` of a pattern one directory deep. */
  lemma BeautySplit()
    ensures Dirname("s/##") == "s"
    ensures Basename("s/##") == "##"
  {
    assert "s/##"[..3] == "s/#";
    assert "s/#"[..2] == "s/";
    assert RFind("s/", '/') == 1;
    assert RFind("s/##", '/') == 1;
    assert "s/##"[..2] == "s/";
    assert Head("s/##") == "s/";
    assert "s/"[0] == 's';
    assert !AllSlashes("s/");
    assert "s/"[..1] == "s";
    assert RStrip("s", '/') == "s";
    assert RStrip("s/", '/') == "s";
    assert "s/##"[2..] == "##";
  }

  /** A two-character run takes the whole four-character frame string. */
  lemma BeautyFrame()
    ensures Substitute("##", FrameString(7)) == "0007"
  {
    assert FrameString(7) == "0007";
    assert NextHash("##", 0) == 0;
    assert RunEnd("##", 0) == 2;
  }

  /** A pattern in a sub-directory, rendered to EXR: the `#` run becomes
      the padded frame, the directory is joined back with a `/`. */
  lemma BeautyPath()
    ensures ExpectedPath("s/##", 7, "exr") == "s/0007.exr"
  {
    BeautySplit();
    BeautyFrame();
    assert Join("s", "0007") == "s/0007";
    assert "s/0007" + "." + "exr" == "s/0007.exr";
    assert '\\' !in "s/0007.exr";
    SlashifyFacts("s/0007.exr", "");
  }

  /** Two products with plain file names over a one-frame range: both
      names are bound to the one list holding the paths of both products. */
  lemma SharedList(a: string, x: string, b: string, y: string, frame: int, ext: string)
    requires '/' !in x && '#' !in x && '\\' !in x
    requires '/' !in y && '#' !in y && '\\' !in y
    requires '\\' !in ext
    ensures ExpectedFileMap([Product(a, x), Product(b, y)], frame, frame, 1, ext)
      == map[a := [x + "." + ext, y + "." + ext], b := [x + "." + ext, y + "." + ext]]
  {
    var products := [Product(a, x), Product(b, y)];
    SingleFrame(frame);
    PlainFileName(x, frame, ext);
    PlainFileName(y, frame, ext);
    TwoByOne(products, [frame], ext);
    TwoNames(products[0], products[1]);
  }

  /** A range whose start is its end holds that one frame. */
  lemma SingleFrame(frame: int)
    ensures Frames(frame, frame, 1) == [frame]
  {
    assert Frames(frame + 1, frame, 1) == [];
  }

  /** The names of a two-product list. */
  lemma TwoNames(p: Product, q: Product)
    ensures Names([p, q]) == {p.name, q.name}
  {
    assert [p, q][0] == p && [p, q][1] == q;
  }

  /** Two products over one frame: the shared list is the first product's
      path followed by the second's. */
  lemma TwoByOne(products: seq<Product>, frames: seq<int>, ext: string)
    requires |products| == 2 && |frames| == 1
    ensures SharedPaths(products, frames, ext)
      == [ExpectedPath(products[0].pattern, frames[0], ext), ExpectedPath(products[1].pattern, frames[0], ext)]
  {
    SharedPathsLength(products, frames, ext);
    SharedPathsAt(products, frames, ext, 0, 0);
    SharedPathsAt(products, frames, ext, 1, 0);
    var shared := SharedPaths(products, frames, ext);
    var p0 := ExpectedPath(products[0].pattern, frames[0], ext);
    var p1 := ExpectedPath(products[1].pattern, frames[0], ext);
    TwoElements(shared, p0, p1);
  }

  /** A sequence of two elements is the display of those elements. */
  lemma TwoElements<T>(s: seq<T>, a: T, b: T)
    requires |s| == 2 && s[0] == a && s[1] == b
    ensures s == [a, b]
  {
  }

  const ShotPattern: string := "shot_010/render_####"

  /** The shot pattern splits at its one `/`. */
  lemma ShotSplit()
    ensures Dirname(ShotPattern) == "shot_010"
    ensures Basename(ShotPattern) == "render_####"
  {
    var p := ShotPattern;
    assert RFind(p[..16], '/') == 8 by {
      assert p[..16][..15] == p[..15];
      assert p[..15][..14] == p[..14];
      assert p[..14][..13] == p[..13];
      assert p[..13][..12] == p[..12];
      assert p[..12][..11] == p[..11];
      assert p[..11][..10] == p[..10];
      assert p[..10][..9] == p[..9];
      assert p[..9][..8] == p[..8];
      assert RFind(p[..10], '/') == 8;
      assert RFind(p[..13], '/') == 8;
    }
    assert RFind(p, '/') == 8 by {
      assert p[..19] == p[..20][..19] && p[..20] == p;
      assert p[..18] == p[..19][..18];
      assert p[..17] == p[..18][..17];
      assert p[..16] == p[..17][..16];
    }
    assert Head(p) == "shot_010/";
    assert "shot_010/"[0] == 's';
    assert !AllSlashes("shot_010/");
    assert "shot_010/"[..8] == "shot_010";
    assert RStrip("shot_010", '/') == "shot_010";
  }

  /** Any replacement text fills the run at the end of `render_####`. */
  lemma ShotSubstitute(rep: string)
    ensures Substitute("render_####", rep) == "render_" + rep
  {
    var f := "render_####";
    assert NextHash(f, 0) == 7 by {
      assert f[0] != '#' && f[1] != '#' && f[2] != '#' && f[3] != '#';
      assert f[4] != '#' && f[5] != '#' && f[6] != '#' && f[7] == '#';
      assert NextHash(f, 4) == 7;
    }
    assert RunEnd(f, 7) == 11 by {
      assert RunEnd(f, 9) == 11;
    }
    assert NextHash(f, 11) == 11;
    assert f[0..7] == "render_";
  }

  /** A four-digit frame is written as its digits, unpadded. */
  lemma FourDigits(frame: nat)
    requires 1000 <= frame <= 9999
    ensures FrameString(frame) == NatToStr(frame)
  {
    NatToStrLength(frame, 4);
    NatToStrLength(frame, 3);
    assert Pow10(3) == 1000 && Pow10(4) == 10000;
  }

  /** Two backslash-free strings concatenate to a backslash-free one. */
  lemma NoBackslashConcat(a: string, b: string)
    requires '\\' !in a && '\\' !in b
    ensures '\\' !in a + b
  {
    assert forall i :: 0 <= i < |a + b| ==> (a + b)[i] == if i < |a| then a[i] else b[i - |a|];
  }

  /** A backslash-free relative file name under a directory that does not
      end in `/` comes out as `dir/file.ext`. */
  lemma PlainJoin(dir: string, file: string, ext: string)
    requires |dir| > 0 && dir[|dir| - 1] != '/' && (|file| == 0 || file[0] != '/')
    requires '\\' !in dir && '\\' !in file && '\\' !in ext
    ensures Slashify(Join(dir, file) + "." + ext) == dir + "/" + file + "." + ext
  {
    JoinKeepsDirectory(dir, file);
    NoBackslashConcat(dir, "/");
    NoBackslashConcat(dir + "/", file);
    NoBackslashConcat(dir + "/" + file, ".");
    NoBackslashConcat(dir + "/" + file + ".", ext);
    SlashifyFacts(dir + "/" + file + "." + ext, "");
  }

  /** The path of the shot pattern for a four-digit frame. */
  lemma ShotPath(frame: nat, digits: string)
    requires 1000 <= frame <= 9999 && digits == NatToStr(frame)
    ensures ExpectedPath(ShotPattern, frame, "exr") == "shot_010/render_" + digits + ".exr"
  {
    ShotSplit();
    FourDigits(frame);
    FrameStringAlphabet(frame);
    ShotSubstitute(digits);
    ShotJoin(digits);
  }

  /** Joining `render_` and a backslash-free frame string under the shot
      directory. */
  lemma ShotJoin(digits: string)
    requires '\\' !in digits
    ensures Slashify(Join("shot_010", "render_" + digits) + "." + "exr") == "shot_010/render_" + digits + ".exr"
  {
    var file := "render_" + digits;
    ShotDirectory();
    assert file[0] == 'r';
    NoBackslashConcat("render_", digits);
    PlainJoin("shot_010", file, "exr");
    assert "shot_010" + "/" + file == "shot_010/render_" + digits;
  }

  lemma ShotDirectory()
    ensures '\\' !in "shot_010" && "shot_010"[7] != '/' && '\\' !in "render_" && '\\' !in "exr"
  {
  }

  /** The digits of the three frames of the shot example. */
  lemma ShotDigits()
    ensures NatToStr(1001) == "1001" && NatToStr(1002) == "1002" && NatToStr(1003) == "1003"
  {
    assert NatToStr(100) == "100";
  }

  /** One product over three frames: the shared list is the product's
      path for each frame in turn. */
  lemma OneByThree(products: seq<Product>, frames: seq<int>, ext: string)
    requires |products| == 1 && |frames| == 3
    ensures SharedPaths(products, frames, ext)
      == [ExpectedPath(products[0].pattern, frames[0], ext),
          ExpectedPath(products[0].pattern, frames[1], ext),
          ExpectedPath(products[0].pattern, frames[2], ext)]
  {
    SharedPathsLength(products, frames, ext);
    assert 1 * |frames| == 3 && 0 * |frames| == 0;
    SharedPathsAt(products, frames, ext, 0, 0);
    SharedPathsAt(products, frames, ext, 0, 1);
    SharedPathsAt(products, frames, ext, 0, 2);
    var shared := SharedPaths(products, frames, ext);
    var p0 := ExpectedPath(products[0].pattern, frames[0], ext);
    var p1 := ExpectedPath(products[0].pattern, frames[1], ext);
    var p2 := ExpectedPath(products[0].pattern, frames[2], ext);
    ThreeElements(shared, p0, p1, p2);
  }

  /** A sequence of three elements is the display of those elements. */
  lemma ThreeElements<T>(s: seq<T>, a: T, b: T, c: T)
    requires |s| == 3 && s[0] == a && s[1] == b && s[2] == c
    ensures s == [a, b, c]
  {
  }

  /** One beauty product over frames 1001 to 1003: its name maps to the
      three padded, joined paths in frame order. */
  lemma ShotExample()
    ensures ExpectedFileMap([Product("beauty", ShotPattern)], 1001, 1003, 1, "exr")
      == map["beauty" := ["shot_010/render_1001.exr", "shot_010/render_1002.exr", "shot_010/render_1003.exr"]]
  {
    var products := [Product("beauty", ShotPattern)];
    var frames := Frames(1001, 1003, 1);
    assert frames == [1001, 1002, 1003] by {
      assert Frames(1004, 1003, 1) == [];
    }
    ShotDigits();
    ShotPath(1001, "1001");
    ShotPath(1002, "1002");
    ShotPath(1003, "1003");
    OneByThree(products, frames, "exr");
    ShotLiterals();
    OneName(products[0]);
    SingleKey(ExpectedFileMap(products, 1001, 1003, 1, "exr"), "beauty");
  }

  /** The three shot paths, spelt out. */
  lemma ShotLiterals()
    ensures "shot_010/render_" + "1001" + ".exr" == "shot_010/render_1001.exr"
    ensures "shot_010/render_" + "1002" + ".exr" == "shot_010/render_1002.exr"
    ensures "shot_010/render_" + "1003" + ".exr" == "shot_010/render_1003.exr"
  {
  }

  /** The names of a one-product list. */
  lemma OneName(p: Product)
    ensures Names([p]) == {p.name}
  {
    assert [p][0] == p;
  }

  /** A mapping whose only key is `k` is the one-entry display. */
  lemma SingleKey<V>(m: map<string, V>, k: string)
    requires m.Keys == {k}
    ensures m == map[k := m[k]]
  {
  }
}
