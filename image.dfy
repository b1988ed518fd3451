/**
 * The text layout of src/image.rs: the framing of a message with a dashed
 * rule and trailing spaces, the greedy line wrapper of `generate_image`
 * (weights in half-units: an ASCII or Latin-1 character is 1, any other
 * character 2, a line holds at most 28), and `v_concat`, which stacks
 * pixel buffers top to bottom.
 */
module Image {
  import opened Strings
  import opened ImageBuf

  /** `IMAGE_WIDTH`. */
  const IMAGE_WIDTH: nat := 384
  /** The font's point size; `IMAGE_WIDTH / font_size` is 16 columns of full-width glyphs. */
  const FONT_SIZE: nat := 24
  /** `floor(384 / 24) - 2 = 14` full-width glyphs, in half-units. */
  const LINE_LIMIT: nat := 2 * (IMAGE_WIDTH / FONT_SIZE - 2)

  const RULE_WIDTH: nat := 27
  const TRAILING_SPACES: nat := 27 * 5

  /** The text handed to the wrapper: a rule of 27 dashes, a line break, the text, then 135 spaces. */
  function Compose(text: string): (r: string)
    ensures |r| == RULE_WIDTH + 1 + |text| + TRAILING_SPACES
    ensures r[..RULE_WIDTH] == Repeat('-', RULE_WIDTH) && r[RULE_WIDTH] == '\n'
    ensures r[RULE_WIDTH + 1..RULE_WIDTH + 1 + |text|] == text
    ensures forall i :: RULE_WIDTH + 1 + |text| <= i < |r| ==> r[i] == ' '
  {
    Repeat('-', RULE_WIDTH) + "\n" + text + Repeat(' ', TRAILING_SPACES)
  }

  /** The width of a character in half-units: 0 for a line break, 1 up to code point 256, else 2. */
  function Weight(c: char): nat {
    if c == '\n' then 0 else if c as int <= 256 then 1 else 2
  }

  /** The wrapper's state: the text built so far and `line_length`, in half-units. */
  datatype WrapState = WrapState(content: string, lineLength: nat)

  /** One turn of the loop over the characters. */
  function Step(s: WrapState, c: char): WrapState {
    var l := Weight(c);
    var content := if c == '\n' then s.content + "\n" else s.content;
    var len := if c == '\n' then 0 else s.lineLength;
    if len + l > LINE_LIMIT then WrapState(content + "\n" + [c], l)
    else WrapState(content + [c], len + l)
  }

  /** The state after the loop has consumed `text`. */
  function Wrap(text: string): WrapState {
    if text == [] then WrapState("", 0) else Step(Wrap(text[..|text| - 1]), text[|text| - 1])
  }

  /** The wrapping loop: a line break is inserted before a character that would overflow the line. */
  method WrapText(text: string) returns (content: string)
    ensures content == Wrap(text).content
  {
    content := "";
    var lineLength := 0;
    var i := 0;
    while i < |text|
      invariant i <= |text|
      invariant WrapState(content, lineLength) == Wrap(text[..i])
    {
      var c := text[i];
      var l := 0;
      if c == '\n' {
        lineLength := 0;
        content := content + "\n";
      } else if c as int <= 256 {
        l := 1;
      } else {
        l := 2;
      }
      if lineLength + l > LINE_LIMIT {
        content := content + "\n";
        lineLength := 0;
      }
      lineLength := lineLength + l;
      content := content + [c];
      assert text[..i + 1][..i] == text[..i];
      i := i + 1;
    }
    assert text[..i] == text;
  }

  /** The content that `generate_image` lays out for a message. */
  method LayOut(text: string) returns (content: string)
    ensures content == Wrap(Compose(text)).content
  {
    var framed := Repeat('-', RULE_WIDTH) + "\n" + text;
    framed := framed + Repeat(' ', TRAILING_SPACES);
    content := WrapText(framed);
  }

  /** The weight of the last line of s: the characters after its last line break. */
  function LastLineWeight(s: string): nat {
    if s == [] || s[|s| - 1] == '\n' then 0 else LastLineWeight(s[..|s| - 1]) + Weight(s[|s| - 1])
  }

  lemma LastLineAppend(s: string, c: char)
    ensures LastLineWeight(s + [c]) == if c == '\n' then 0 else LastLineWeight(s) + Weight(c)
  {
    assert (s + [c])[..|s|] == s;
  }

  /** `line_length` never exceeds the limit, and it is the weight of the content's last line. */
  lemma {:induction false} WrapBound(text: string)
    ensures Wrap(text).lineLength <= LINE_LIMIT
    ensures Wrap(text).lineLength == LastLineWeight(Wrap(text).content)
  {
    if text != [] {
      var init := text[..|text| - 1];
      var c := text[|text| - 1];
      WrapBound(init);
      var s := Wrap(init);
      if c == '\n' {
        LastLineAppend(s.content, '\n');
        LastLineAppend(s.content + "\n", c);
      } else if s.lineLength + Weight(c) > LINE_LIMIT {
        LastLineAppend(s.content, '\n');
        LastLineAppend(s.content + "\n", c);
      } else {
        LastLineAppend(s.content, c);
      }
    }
  }

  /** A line break in the input comes out doubled and starts an empty line. */
  lemma NewlineDoubled(text: string)
    ensures Wrap(text + "\n") == WrapState(Wrap(text).content + "\n\n", 0)
  {
    assert (text + "\n")[..|text|] == text;
  }

  /** A break is inserted before c exactly when c would make the line heavier than the limit. */
  lemma BreakRule(text: string, c: char)
    requires c != '\n'
    ensures var s := Wrap(text);
      var overflow := s.lineLength + Weight(c) > LINE_LIMIT;
      Wrap(text + [c]) ==
        if overflow then WrapState(s.content + "\n" + [c], Weight(c))
        else WrapState(s.content + [c], s.lineLength + Weight(c))
  {
    assert (text + [c])[..|text|] == text;
  }

  /** `s` with every line break removed. */
  function DropBreaks(s: string): (r: string)
    ensures |r| <= |s|
  {
    if s == [] then []
    else DropBreaks(s[..|s| - 1]) + (if s[|s| - 1] == '\n' then [] else [s[|s| - 1]])
  }

  lemma {:induction false} DropBreaksAppend(a: string, b: string)
    ensures DropBreaks(a + b) == DropBreaks(a) + DropBreaks(b)
    decreases |b|
  {
    if b == [] {
      assert a + b == a;
    } else {
      var init := b[..|b| - 1];
      DropBreaksAppend(a, init);
      assert (a + b)[..|a + b| - 1] == a + init;
    }
  }

  /** A turn of the loop appends c, alone or after a line break. */
  lemma StepAppends(s: WrapState, c: char)
    ensures Step(s, c).content == s.content + [c] || Step(s, c).content == s.content + "\n" + [c]
  {
  }

  /** Apart from line breaks the content is the input, in order: nothing is lost, added or moved. */
  lemma {:induction false} WrapKeepsText(text: string)
    ensures DropBreaks(Wrap(text).content) == DropBreaks(text)
  {
    if text != [] {
      var init := text[..|text| - 1];
      var c := text[|text| - 1];
      assert init + [c] == text;
      WrapKeepsText(init);
      var s := Wrap(init);
      StepAppends(s, c);
      DropBreaksAppend(init, [c]);
      if Step(s, c).content == s.content + [c] {
        DropBreaksAppend(s.content, [c]);
      } else {
        DropBreaksAppend(s.content + "\n", [c]);
        DropBreaksAppend(s.content, "\n");
      }
    }
  }

  // ---------------------------------------------------------------------
  // v_concat
  // ---------------------------------------------------------------------

  /** The summed heights of the images. */
  function SumHeights<T>(images: seq<Raster<T>>): nat {
    if images == [] then 0 else SumHeights(images[..|images| - 1]) + images[|images| - 1].height
  }

  /** The row at which image k is placed: the summed heights of the images before it. */
  function Offset<T>(images: seq<Raster<T>>, k: nat): nat
    requires k <= |images|
  {
    SumHeights(images[..k])
  }

  /** The widest image's width, or 384 when there are none. */
  function MaxWidth<T>(images: seq<Raster<T>>): (w: nat)
    ensures forall k :: 0 <= k < |images| ==> images[k].width <= w
    ensures images == [] ==> w == IMAGE_WIDTH
    ensures images != [] ==> exists k :: 0 <= k < |images| && images[k].width == w
  {
    if images == [] then IMAGE_WIDTH
    else if |images| == 1 then images[0].width
    else
      var rest := MaxWidth(images[..|images| - 1]);
      var last := images[|images| - 1].width;
      if last <= rest then rest else last
  }

  lemma OffsetStep<T>(images: seq<Raster<T>>, k: nat)
    requires k < |images|
    ensures Offset(images, k + 1) == Offset(images, k) + images[k].height
  {
    assert images[..k + 1][..k] == images[..k];
  }

  /** Image k ends no lower than the output's height. */
  lemma {:induction false} OffsetBound<T>(images: seq<Raster<T>>, k: nat)
    requires k < |images|
    ensures Offset(images, k) + images[k].height <= SumHeights(images)
    decreases |images| - k
  {
    OffsetStep(images, k);
    if k + 1 < |images| {
      OffsetBound(images, k + 1);
    } else {
      assert images[..k + 1] == images;
    }
  }

  /** `img_buf.copy_from(img, 0, top)`: the image's pixels land at rows top.., columns 0..; the rest is untouched. */
  method CopyFrom<T>(buf: array2<T>, img: Raster<T>, top: nat)
    requires WellFormed(img) && top + img.height <= buf.Length0 && img.width <= buf.Length1
    modifies buf
    ensures forall r, x :: 0 <= r < buf.Length0 && 0 <= x < buf.Length1 ==>
      buf[r, x] == if top <= r < top + img.height && x < img.width then img.rows[r - top][x] else old(buf[r, x])
  {
    var y := 0;
    while y < img.height
      invariant y <= img.height
      invariant forall r, x :: 0 <= r < buf.Length0 && 0 <= x < buf.Length1 ==>
        buf[r, x] == if top <= r < top + y && x < img.width then img.rows[r - top][x] else old(buf[r, x])
    {
      var x := 0;
      while x < img.width
        invariant x <= img.width
        invariant forall r, x' :: 0 <= r < buf.Length0 && 0 <= x' < buf.Length1 ==>
          buf[r, x'] ==
            if (top <= r < top + y && x' < img.width) || (r == top + y && x' < x) then img.rows[r - top][x'] else old(buf[r, x'])
      {
        buf[top + y, x] := img.rows[y][x];
        x := x + 1;
      }
      y := y + 1;
    }
  }

  /** Rows of image k in the output hold its pixels, then `blank` out to the output's width. */
  ghost predicate Placed<T>(buf: array2<T>, images: seq<Raster<T>>, k: nat, blank: T)
    requires k < |images| && WellFormed(images[k])
    reads buf
  {
    var top := Offset(images, k);
    var img := images[k];
    top + img.height <= buf.Length0 && img.width <= buf.Length1 &&
    forall r, x :: top <= r < top + img.height && 0 <= x < buf.Length1 ==>
      buf[r, x] == if x < img.width then img.rows[r - top][x] else blank
  }

  /**
   * `v_concat`: a buffer as wide as the widest image and as high as all of
   * them, filled with `blank` (the pixel type's zero), with image k copied
   * in at row `Offset(images, k)`.
   */
  method VConcat<T>(images: seq<Raster<T>>, blank: T) returns (imgbuf: array2<T>)
    requires forall k :: 0 <= k < |images| ==> WellFormed(images[k])
    ensures fresh(imgbuf)
    ensures imgbuf.Length0 == SumHeights(images) && imgbuf.Length1 == MaxWidth(images)
    ensures forall k :: 0 <= k < |images| ==> Placed(imgbuf, images, k, blank)
  {
    var width := MaxWidth(images);
    var height := SumHeights(images);
    imgbuf := new T[height, width]((_, _) => blank);
    var accumulated := 0;
    var k := 0;
    while k < |images|
      invariant k <= |images| && accumulated == Offset(images, k) <= height
      invariant imgbuf.Length0 == height && imgbuf.Length1 == width
      invariant forall j :: 0 <= j < k ==> Placed(imgbuf, images, j, blank)
      invariant forall r, x :: accumulated <= r < height && 0 <= x < width ==> imgbuf[r, x] == blank
    {
      PlaceImage(imgbuf, images, k, blank);
      OffsetBound(images, k);
      OffsetStep(images, k);
      accumulated := accumulated + images[k].height;
      k := k + 1;
    }
  }

  /** One turn of the `v_concat` loop: image k is copied below the images before it, into blank rows. */
  method PlaceImage<T>(imgbuf: array2<T>, images: seq<Raster<T>>, k: nat, blank: T)
    requires k < |images| && forall j :: 0 <= j < |images| ==> WellFormed(images[j])
    requires imgbuf.Length0 == SumHeights(images) && imgbuf.Length1 == MaxWidth(images)
    requires forall j :: 0 <= j < k ==> Placed(imgbuf, images, j, blank)
    requires forall r, x :: Offset(images, k) <= r < imgbuf.Length0 && 0 <= x < imgbuf.Length1 ==> imgbuf[r, x] == blank
    modifies imgbuf
    ensures forall j :: 0 <= j <= k ==> Placed(imgbuf, images, j, blank)
    ensures forall r, x :: Offset(images, k) + images[k].height <= r < imgbuf.Length0 && 0 <= x < imgbuf.Length1 ==>
      imgbuf[r, x] == blank
  {
    var img := images[k];
    var top := Offset(images, k);
    OffsetBound(images, k);
    PlacedBefore(images, k);
    CopyFrom(imgbuf, img, top);
    forall j | 0 <= j < k
      ensures Placed(imgbuf, images, j, blank)
    {
      assert old(Placed(imgbuf, images, j, blank));
    }
    forall r, x | top <= r < top + img.height && 0 <= x < imgbuf.Length1
      ensures imgbuf[r, x] == if x < img.width then img.rows[r - top][x] else blank
    {
      assert old(imgbuf[r, x]) == blank;
    }
    assert Placed(imgbuf, images, k, blank);
  }

  /** Images before k end at or above image k's first row. */
  lemma PlacedBefore<T>(images: seq<Raster<T>>, k: nat)
    requires k < |images|
    ensures forall j :: 0 <= j < k ==> Offset(images, j) + images[j].height <= Offset(images, k)
  {
    forall j | 0 <= j < k
      ensures Offset(images, j) + images[j].height <= Offset(images, k)
    {
      OffsetBound(images[..k], j);
      assert images[..k][..j] == images[..j];
      assert images[..k][j] == images[j];
    }
  }

  /** Every output row belongs to exactly one image: the first k whose rows reach past it. */
  lemma {:induction false} RowOwner<T>(images: seq<Raster<T>>, r: nat)
    requires r < SumHeights(images)
    ensures exists k :: 0 <= k < |images| && Offset(images, k) <= r < Offset(images, k) + images[k].height
    decreases |images|
  {
    var n := |images| - 1;
    var init := images[..n];
    assert Offset(images, n) == SumHeights(init);
    if r < SumHeights(init) {
      RowOwner(init, r);
      var k :| 0 <= k < |init| && Offset(init, k) <= r < Offset(init, k) + init[k].height;
      assert init[..k] == images[..k];
      assert Offset(images, k) <= r < Offset(images, k) + images[k].height;
    } else {
      assert Offset(images, n) <= r < Offset(images, n) + images[n].height;
    }
  }
}
