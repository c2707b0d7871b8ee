/** `create_blank_image`: the blank sprite sheet and its pixel buffer. */
module Pixels {
  import opened Arithmetic

  /** One RGBA colour; Blender stores it as four consecutive channel values. */
  datatype Color = Rgba(r: real, g: real, b: real, a: real)

  /** The default colour of the blank sheet: transparent black. */
  const TransparentBlack := Rgba(0.0, 0.0, 0.0, 0.0)

  function Channels(c: Color): seq<real>
  {
    [c.r, c.g, c.b, c.a]
  }

  /** Python's `s * n` on lists: `n` copies of `s`, one after another. */
  function Repeat<T>(s: seq<T>, n: nat): seq<T>
  {
    if n == 0 then [] else s + Repeat(s, n - 1)
  }

  /** `s * n` has `n` times the length of `s`, and entry `k` is entry
      `k mod |s|` of `s`. */
  lemma {:induction false} RepeatAt<T>(s: seq<T>, n: nat)
    ensures |Repeat(s, n)| == |s| * n
    ensures forall k :: 0 <= k < |s| * n ==> Repeat(s, n)[k] == s[k % |s|]
  {
    if n > 0 {
      var rest := Repeat(s, n - 1);
      var r := s + rest;
      assert Repeat(s, n) == r;
      RepeatAt(s, n - 1);
      MulSucc(|s|, n - 1);
      assert |r| == |s| * n;
      forall k | 0 <= k < |r| ensures r[k] == s[k % |s|] {
        if k < |s| {
          ModSmall(k, |s|);
        } else {
          assert r[k] == rest[k - |s|];
          ModShift(k, |s|);
        }
      }
    }
  }

  lemma ModSmall(k: int, m: int)
    requires 0 <= k < m
    ensures k % m == k
  {
  }

  lemma MulSucc(a: nat, b: nat)
    ensures a * (b + 1) == a + a * b
  {
  }

  lemma ModShift(k: int, m: int)
    requires 0 < m <= k
    ensures (k - m) % m == k % m
  {
    var q, r := k / m, k % m;
    var q', r' := (k - m) / m, (k - m) % m;
    assert k == m * q + r;
    assert k - m == m * q' + r';
    assert m * (q' - q + 1) == r - r';
    MultipleInRange(m, q' - q + 1);
  }

  /** The image `bpy.data.images.new` creates, with the pixels assigned to it. */
  datatype Image = Image(name: string, width: nat, height: nat, alpha: bool, floatBuffer: bool,
                         pixels: seq<real>)

  /** Lines 34-38: an 8-bit RGBA image of the given size whose every pixel is `color`. */
  function CreateBlankImage(width: nat, height: nat, name: string := "SpriteSheet",
                            color: Color := TransparentBlack): (image: Image)
    ensures image.name == name && image.width == width && image.height == height
    ensures image.alpha && !image.floatBuffer
    ensures |image.pixels| == 4 * (width * height)
    ensures forall k :: 0 <= k < |image.pixels| ==> image.pixels[k] == Channels(color)[k % 4]
  {
    RepeatAt(Channels(color), width * height);
    Image(name, width, height, true, false, Repeat(Channels(color), width * height))
  }

  /** Pixel `p` of the buffer, its four channels, is the fill colour. */
  lemma BlankPixelIsColor(width: nat, height: nat, color: Color, p: nat)
    requires p < width * height
    ensures 4 * p + 4 <= |CreateBlankImage(width, height, "SpriteSheet", color).pixels|
    ensures CreateBlankImage(width, height, "SpriteSheet", color).pixels[4 * p..4 * p + 4] == Channels(color)
  {
    var px := CreateBlankImage(width, height, "SpriteSheet", color).pixels;
    assert 4 * p + 4 <= 4 * (width * height);
    forall c | 0 <= c < 4 ensures px[4 * p..4 * p + 4][c] == Channels(color)[c] {
      assert (4 * p + c) % 4 == c;
    }
  }

  /** With the default colour every channel of every pixel is 0: the sheet
      starts fully transparent. */
  lemma DefaultSheetIsTransparent(width: nat, height: nat)
    ensures forall k :: 0 <= k < |CreateBlankImage(width, height).pixels| ==>
              CreateBlankImage(width, height).pixels[k] == 0.0
  {
  }
}
