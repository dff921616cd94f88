/** `CollectBlenderRender.generate_expected_files`: expand a list of
    `(render_name, render_file)` products over a frame range into the
    paths the render will write.

    For each product the pattern is split into directory and file name;
    for every frame of `range(start, end + 1, step)` the frame number,
    zero-padded to four characters, replaces every run of `#` in the file
    name, the directory is joined back, `.ext` is appended and backslashes
    become slashes.

    As written, the list the paths are appended to is created once, before
    the product loop, and every product name is bound to that same list.
    When the function returns, every name therefore maps to the paths of
    ALL products, in input order. That is the behaviour modelled here. */
module ExpectedFiles {
  import opened PyStr
  import opened HashRuns
  import opened PosixPath
  import opened Seqs

  /** One `(render_name, render_file)` pair of a render product list. */
  datatype Product = Product(name: string, pattern: string)

  /** The frames `range(start, end + 1, step)` visits: none exactly when
      the range is empty; otherwise the first is `start` and the last is
      the final one not past `end`. */
  function Frames(start: int, end: int, step: int): (r: seq<int>)
    requires step >= 1
    ensures |r| == 0 <==> start > end
    ensures |r| > 0 ==> r[0] == start
    ensures |r| > 0 ==> r[|r| - 1] <= end < r[|r| - 1] + step
    decreases end - start
  {
    if start > end then [] else [start] + Frames(start + step, end, step)
  }

  /** Number of frames in the inclusive range: `ceil((end - start + 1) / step)`,
      or none when the range is empty. */
  function FrameCount(start: int, end: int, step: int): nat
    requires step >= 1
  {
    if start > end then 0 else (end - start) / step + 1
  }

  /** `str(frame).rjust(4, "0")`: `max(4, len(str(frame)))` characters. */
  function FrameString(frame: int): (r: string)
    ensures |r| == if |IntToStr(frame)| < 4 then 4 else |IntToStr(frame)|
  {
    RJust(IntToStr(frame), 4, '0')
  }

  /** The body of the frame loop: the frame string replaces every `#` run
      of the file name, the directory is joined back, `.ext` is appended
      and backslashes become slashes. */
  function FramePath(dir: string, file: string, frame: int, ext: string): string {
    Slashify(Join(dir, Substitute(file, FrameString(frame))) + "." + ext)
  }

  /** The path one product writes for one frame; it always has room for
      at least the `.ext` it ends with. */
  function ExpectedPath(pattern: string, frame: int, ext: string): (r: string)
    ensures |r| >= |ext| + 1
  {
    FramePath(Dirname(pattern), Basename(pattern), frame, ext)
  }

  /** The frame loop's body for one product, as a function of the frame. */
  function PathOf(pattern: string, ext: string): int -> string {
    frame => ExpectedPath(pattern, frame, ext)
  }

  /** The paths of one product, one per frame, in frame order. */
  function ProductPaths(pattern: string, frames: seq<int>, ext: string): seq<string> {
    MapSeq(PathOf(pattern, ext), frames)
  }

  /** The product loop's body, as a function of the product. */
  function RowOf(frames: seq<int>, ext: string): Product -> seq<string> {
    (product: Product) => ProductPaths(product.pattern, frames, ext)
  }

  /** Each product's paths, in product order. */
  function PathRows(products: seq<Product>, frames: seq<int>, ext: string): seq<seq<string>> {
    MapSeq(RowOf(frames, ext), products)
  }

  /** The one list all products append to. */
  function SharedPaths(products: seq<Product>, frames: seq<int>, ext: string): seq<string> {
    Concat(PathRows(products, frames, ext))
  }

  function Names(products: seq<Product>): set<string> {
    set p | p in products :: p.name
  }

  /** The mapping `generate_expected_files` returns: every product name
      bound to the one shared list. */
  function ExpectedFileMap(products: seq<Product>, start: int, end: int, step: int, ext: string)
    : (r: map<string, seq<string>>)
    requires step >= 1
    ensures r.Keys == Names(products)
    ensures forall n1, n2 :: n1 in r && n2 in r ==> r[n1] == r[n2]
  {
    var shared := SharedPaths(products, Frames(start, end, step), ext);
    map n | n in Names(products) :: shared
  }

  /** `generate_expected_files`, loop for loop: the product loop, and one
      accumulator `aovFiles` that every name is bound to. A Dafny sequence
      is a value, so the aliasing is made explicit: the loop records which
      names were bound and the map is built from the final list. */
  method GenerateExpectedFiles(products: seq<Product>, start: int, end: int, step: int, ext: string)
    returns (expected: map<string, seq<string>>)
    requires step >= 1
    ensures expected.Keys == Names(products)
    ensures forall n :: n in expected ==> expected[n] == SharedPaths(products, Frames(start, end, step), ext)
  {
    ghost var frames := Frames(start, end, step);
    var aovFiles: seq<string> := [];
    var bound: set<string> := {};
    for p := 0 to |products|
      invariant aovFiles == SharedPaths(products[..p], frames, ext)
      invariant bound == Names(products[..p])
    {
      var path := Dirname(products[p].pattern);
      var file := Basename(products[p].pattern);
      aovFiles := AppendFrames(aovFiles, path, file, products[p].pattern, start, end, step, ext);
      PrefixSnoc(products, p, frames, ext);
      NamesSnoc(products, p);
      bound := bound + {products[p].name};
    }
    assert products[..|products|] == products;
    expected := map n | n in bound :: aovFiles;
  }

  /** The frame loop of one product: one path per frame of
      `range(start, end + 1, step)`, appended to the shared list. */
  method AppendFrames(aovFiles: seq<string>, path: string, file: string, ghost pattern: string,
                      start: int, end: int, step: int, ext: string)
    returns (extended: seq<string>)
    requires step >= 1
    requires path == Dirname(pattern) && file == Basename(pattern)
    ensures extended == aovFiles + ProductPaths(pattern, Frames(start, end, step), ext)
  {
    var frames := Frames(start, end, step);
    extended := aovFiles;
    for j := 0 to |frames|
      invariant extended == aovFiles + ProductPaths(pattern, frames[..j], ext)
    {
      var next := FramePath(path, file, frames[j], ext);
      ProductPathsSnoc(pattern, frames, j, ext);
      AppendAssoc(aovFiles, ProductPaths(pattern, frames[..j], ext), [next]);
      extended := extended + [next];
    }
    assert frames[..|frames|] == frames;
  }

  /** One more frame appends that frame's path. */
  lemma ProductPathsSnoc(pattern: string, frames: seq<int>, j: nat, ext: string)
    requires j < |frames|
    ensures ProductPaths(pattern, frames[..j + 1], ext)
      == ProductPaths(pattern, frames[..j], ext) + [FramePath(Dirname(pattern), Basename(pattern), frames[j], ext)]
  {
    MapSeqSnoc(PathOf(pattern, ext), frames, j);
  }

  /** Position `k` of a product's paths is its path for the k-th frame. */
  lemma ProductPathsAt(pattern: string, frames: seq<int>, ext: string, k: nat)
    requires k < |frames|
    ensures ProductPaths(pattern, frames, ext)[k] == ExpectedPath(pattern, frames[k], ext)
  {
    MapSeqAt(PathOf(pattern, ext), frames, k);
  }

  /** Taking one more product appends its paths. */
  lemma PrefixSnoc(products: seq<Product>, p: nat, frames: seq<int>, ext: string)
    requires p < |products|
    ensures SharedPaths(products[..p + 1], frames, ext)
      == SharedPaths(products[..p], frames, ext) + ProductPaths(products[p].pattern, frames, ext)
  {
    MapSeqSnoc(RowOf(frames, ext), products, p);
    ConcatSnoc(PathRows(products[..p], frames, ext), ProductPaths(products[p].pattern, frames, ext));
  }

  /** Taking one more product binds its name. */
  lemma NamesSnoc(products: seq<Product>, p: nat)
    requires p < |products|
    ensures Names(products[..p + 1]) == Names(products[..p]) + {products[p].name}
  {
    assert products[..p + 1] == products[..p] + [products[p]];
  }

  /** `range(start, end + 1, step)` for `step >= 1`: the k-th frame is
      `start + k * step`, and there are `FrameCount` of them; an empty range
      (`start > end`) gives no frame and no error. */
  lemma {:induction false} FramesClosedForm(start: int, end: int, step: int)
    requires step >= 1
    ensures |Frames(start, end, step)| == FrameCount(start, end, step)
    ensures forall k :: 0 <= k < |Frames(start, end, step)| ==> Frames(start, end, step)[k] == start + k * step
    decreases end - start
  {
    if start <= end {
      var rest := Frames(start + step, end, step);
      FramesClosedForm(start + step, end, step);
      if start + step <= end {
        DivStep(end - start - step, step);
      }
      forall k | 1 <= k < |Frames(start, end, step)|
        ensures Frames(start, end, step)[k] == start + k * step
      {
        assert Frames(start, end, step)[k] == rest[k - 1];
        assert (k - 1) * step + step == k * step;
      }
    }
  }

  /** Euclidean division is determined by quotient and remainder. */
  lemma DivUnique(a: int, b: int, q: int, r: int)
    requires b >= 1 && a == q * b + r && 0 <= r < b
    ensures a / b == q && a % b == r
  {
    var d := a / b - q;
    assert d * b == r - a % b;
    if d >= 1 {
      MulAtLeast(d, b);
    } else if d <= -1 {
      MulAtMost(d, b);
    }
  }

  lemma MulAtLeast(d: int, b: int)
    requires d >= 1 && b >= 0
    ensures d * b >= b
  {
    assert d * b == (d - 1) * b + b;
    assert (d - 1) * b >= 0;
  }

  lemma MulAtMost(d: int, b: int)
    requires d <= -1 && b >= 0
    ensures d * b <= -b
  {
    assert d * b == -((-d - 1) * b) - b;
    assert (-d - 1) * b >= 0;
  }

  /** One more step adds one to the quotient and keeps the remainder. */
  lemma DivStep(a: int, b: int)
    requires b >= 1
    ensures (a + b) / b == a / b + 1 && (a + b) % b == a % b
  {
    DivUnique(a + b, b, a / b + 1, a % b);
  }

  /** The frames visited are exactly the frames `x` with
      `start <= x <= end` that lie a whole number of steps after `start`. */
  lemma {:induction false} FramesMembership(start: int, end: int, step: int, x: int)
    requires step >= 1
    ensures x in Frames(start, end, step) <==> start <= x <= end && (x - start) % step == 0
    decreases end - start
  {
    if start <= end {
      var rest := Frames(start + step, end, step);
      assert Frames(start, end, step) == [start] + rest;
      assert x in [start] + rest <==> x == start || x in rest;
      FramesMembership(start + step, end, step, x);
      DivStep(x - start - step, step);
      assert (x - start) % step == (x - (start + step)) % step;
      if x > start && (x - start) % step == 0 {
        ModSmall(x - start, step);
      }
    }
  }

  lemma ModSmall(a: int, b: int)
    requires 0 < a && b >= 1 && a % b == 0
    ensures a >= b
  {
    if a < b {
      DivUnique(a, b, 0, a);
    }
  }

  /** The frame string of a non-negative frame is its decimal value padded
      with `0` to four characters; it is never truncated, so a frame of
      10000 or more appears with all its digits. */
  lemma FrameStringDenotes(frame: nat)
    ensures AllDigits(FrameString(frame)) && ParseDecimal(FrameString(frame)) == frame
    ensures |FrameString(frame)| == if frame < 10000 then 4 else |NatToStr(frame)|
    ensures frame >= 10000 ==> FrameString(frame) == NatToStr(frame)
  {
    var s := NatToStr(frame);
    NatToStrParses(frame);
    NatToStrLength(frame, 4);
    assert Pow10(4) == 10000;
    if |s| < 4 {
      assert FrameString(frame) == Repeat('0', 4 - |s|) + s;
      LeadingZerosParse(4 - |s|, s);
    }
  }

  /** A frame string holds only digits and a `-` sign: no `#`, no `/`,
      no backslash. */
  lemma FrameStringAlphabet(frame: int)
    ensures forall i :: 0 <= i < |FrameString(frame)| ==>
      IsDigit(FrameString(frame)[i]) || FrameString(frame)[i] == '-'
    ensures '#' !in FrameString(frame) && '/' !in FrameString(frame) && '\\' !in FrameString(frame)
  {
    var s := IntToStr(frame);
    var r := FrameString(frame);
    var pad := |r| - |s|;
    RJustPads(s, 4, '0');
    IntToStrAlphabet(frame);
    forall i | 0 <= i < |r|
      ensures IsDigit(r[i]) || r[i] == '-'
    {
      if i >= pad {
        assert r[pad..][i - pad] == s[i - pad];
      } else {
        assert r[i] == '0';
      }
    }
  }

  /** One expected path: no backslash survives; it starts with the
      pattern's directory (never substituted) and ends with `.ext`, both
      with backslashes turned into slashes; and its
      file name is the pattern's file name with every `#` run replaced by
      the frame string. */
  lemma ExpectedPathShape(pattern: string, frame: int, ext: string)
    ensures '\\' !in ExpectedPath(pattern, frame, ext)
    ensures var dir := Slashify(Dirname(pattern));
      |dir| <= |ExpectedPath(pattern, frame, ext)| && ExpectedPath(pattern, frame, ext)[..|dir|] == dir
    ensures var tail := Slashify("." + ext);
      |tail| <= |ExpectedPath(pattern, frame, ext)|
      && ExpectedPath(pattern, frame, ext)[|ExpectedPath(pattern, frame, ext)| - |tail|..] == tail
    ensures ExpectedPath(pattern, frame, ext)
      == Slashify(Join(Dirname(pattern), JoinWith(FrameString(frame), SplitFrom(Basename(pattern), 0))) + "." + ext)
  {
    var base := Basename(pattern);
    var filename := Substitute(base, FrameString(frame));
    FrameStringAlphabet(frame);
    SubstituteAvoids(base, 0, FrameString(frame), '/');
    assert base[0..] == base;
    SubstituteJoinsSplit(base, 0, FrameString(frame));
    JoinedPathShape(Dirname(pattern), filename, ext);
  }

  /** `Slashify(Join(dir, file) + "." + ext)` for a file name without `/`:
      no backslash, the directory in front, `.ext` at the end. */
  lemma JoinedPathShape(dir: string, file: string, ext: string)
    requires '/' !in file
    ensures var r := Slashify(Join(dir, file) + "." + ext);
      && '\\' !in r
      && |Slashify(dir)| <= |r| && r[..|Slashify(dir)|] == Slashify(dir)
      && |Slashify("." + ext)| <= |r| && r[|r| - |Slashify("." + ext)|..] == Slashify("." + ext)
  {
    var joined, tail := Join(dir, file), "." + ext;
    JoinKeepsDirectory(dir, file);
    var rest := joined[|dir|..];
    assert joined == dir + rest;
    AppendAssoc(joined, ".", ext);
    SlashifyFacts(joined + tail, "");
    SlashifyFacts(joined, tail);
    SlashifyFacts(dir, rest);
    FrontAndBack(Slashify(dir), Slashify(rest), Slashify(tail));
  }

  /** A bare file name without `/`, `#` or backslash comes out as itself
      with `.ext` appended, for every frame. */
  lemma PlainFileName(pattern: string, frame: int, ext: string)
    requires '/' !in pattern && '#' !in pattern && '\\' !in pattern && '\\' !in ext
    ensures ExpectedPath(pattern, frame, ext) == pattern + "." + ext
  {
    assert Dirname(pattern) == "";
    assert Basename(pattern) == pattern[0..] == pattern;
    assert Join("", pattern) == pattern;
    SlashifyFacts(pattern + ".", ext);
    SlashifyFacts(pattern, ".");
    SlashifyFacts(ext, "");
    SlashifyFacts(".", "");
  }

  /** A pattern whose file name holds no `#` gives the same path for every
      frame, so the list repeats one path once per frame. */
  lemma NoPlaceholderRepeats(pattern: string, f1: int, f2: int, ext: string)
    requires '#' !in Basename(pattern)
    ensures ExpectedPath(pattern, f1, ext) == ExpectedPath(pattern, f2, ext)
    ensures ExpectedPath(pattern, f1, ext) == Slashify(Join(Dirname(pattern), Basename(pattern)) + "." + ext)
  {
  }

  /** Every product contributes one path per frame. */
  lemma SharedPathsLength(products: seq<Product>, frames: seq<int>, ext: string)
    ensures |SharedPaths(products, frames, ext)| == |products| * |frames|
  {
    RowWidths(products, frames, ext);
    ConcatLength(PathRows(products, frames, ext), |frames|);
  }

  /** The shared list holds product `i`'s path for the k-th frame at index
      `i * |frames| + k`: products in input order, frames in range order
      within each product. */
  lemma SharedPathsAt(products: seq<Product>, frames: seq<int>, ext: string, i: nat, k: nat)
    requires i < |products| && k < |frames|
    ensures i * |frames| + k < |SharedPaths(products, frames, ext)|
    ensures SharedPaths(products, frames, ext)[i * |frames| + k] == ExpectedPath(products[i].pattern, frames[k], ext)
  {
    RowWidths(products, frames, ext);
    ConcatAt(PathRows(products, frames, ext), |frames|, i, k);
    MapSeqAt(RowOf(frames, ext), products, i);
    ProductPathsAt(products[i].pattern, frames, ext, k);
  }

  lemma RowWidths(products: seq<Product>, frames: seq<int>, ext: string)
    ensures forall j :: 0 <= j < |PathRows(products, frames, ext)| ==> |PathRows(products, frames, ext)[j]| == |frames|
  {
  }

  /** The returned mapping: its keys are exactly the product names (none
      for an empty product list), and every key maps to the same list of
      `#products * #frames` paths. */
  lemma ExpectedFilesShape(products: seq<Product>, start: int, end: int, step: int, ext: string)
    requires step >= 1
    ensures var r := ExpectedFileMap(products, start, end, step, ext);
      && r.Keys == Names(products)
      && (|products| == 0 ==> r == map[])
      && (forall n1, n2 :: n1 in r && n2 in r ==> r[n1] == r[n2])
      && (forall n :: n in r ==> |r[n]| == |products| * FrameCount(start, end, step))
  {
    FramesClosedForm(start, end, step);
    SharedPathsLength(products, Frames(start, end, step), ext);
  }

  /** Whatever name is looked up, index `i * #frames + k` of its list is
      product `i`'s path for frame `start + k * step`. */
  lemma ExpectedFilesAt(products: seq<Product>, start: int, end: int, step: int, ext: string,
                        name: string, i: nat, k: nat)
    requires step >= 1
    requires name in Names(products) && i < |products| && k < FrameCount(start, end, step)
    ensures var r, count := ExpectedFileMap(products, start, end, step, ext), FrameCount(start, end, step);
      && name in r
      && i * count + k < |r[name]|
      && r[name][i * count + k] == ExpectedPath(products[i].pattern, start + k * step, ext)
  {
    var frames := Frames(start, end, step);
    var shared := SharedPaths(products, frames, ext);
    FrameAt(start, end, step, k);
    SharedPathsAt(products, frames, ext, i, k);
    assert ExpectedFileMap(products, start, end, step, ext)[name] == shared;
  }

  /** The k-th frame of the range, for one `k`. */
  lemma FrameAt(start: int, end: int, step: int, k: nat)
    requires step >= 1 && k < FrameCount(start, end, step)
    ensures |Frames(start, end, step)| == FrameCount(start, end, step)
    ensures Frames(start, end, step)[k] == start + k * step
  {
    FramesClosedForm(start, end, step);
  }
}
