# 3D to Sprite Sheet — a Dafny model of the sheet planner

The Blender add-on "3D to Sprite Sheet" packs a rendered image sequence
into one sprite sheet. It does this by building compositor nodes. It
normalises the chosen directory and lists the `.png` frames in name order.
It then sizes a blank transparent sheet as a grid of `columns` × `rows`
frames and warns when the grid is too small. Finally it builds one node
group per frame. Each group moves its frame to its grid cell and
alpha-composites it over the output of the previous group. The last group
is the finished sheet.

This project models that planning logic in Dafny and proves what it
guarantees. Blender's API (`bpy`) is not modelled: what it reports comes in
as parameters, and what it would create comes out as values.

- `Strings` (`strings.dfy`): the Python string operations used.
  - `str.endswith`, one-character `str.replace` and `str.rfind`.
  - `<=` on `str`, the order `list.sort` puts names in, proved to be a
    total order.
  - The decimal text of `f"{index}"`, with its round trip.
- `Directory` (`directory.dfy`): `output_directory_string`.
- `Frames` (`frames.dfy`): `get_img_files`. The loop is a method. It
  appends each matching name and sorts after every step, as the source
  does. `SortByName` is an insertion sort that stands in for `list.sort`.
- `Pixels` (`pixels.dfy`): `create_blank_image` and the repeated pixel
  list `list(color) * (width * height)`.
- `Placement` (`placement.dfy`): `sprite_position`. The `* 0.5` is computed
  with exact `real` arithmetic.
- `Compositor` (`compositor.dfy`): `create_compositor` as a plan.
  - The plan holds the directory and files handed to `image.open`, the
    warning, the reload path, the render resolution, the blank sheet, one
    stage per frame with its input link, and the node returned.
  - `Evaluate` reads the picture a plan's links produce, as a term.
  - `SheetFold` is the independent reference: a left fold of alpha-over
    across the frames.
- `Arithmetic` (`arithmetic.dfy`): an integer fact the pixel and placement
  proofs share.
- `Wrappers` (`wrappers.dfy`): `Option`, used for the two optional plan
  fields.

Three behaviours of the source that the model reproduces as written:

- Nothing guards an empty listing. Lines 118-120 catch only a
  `RuntimeError` raised while opening the files, and line 121 then indexes
  `img_files[0]`. `CreateCompositor` therefore requires a listing with at
  least one `.png` name (see "Left out").
- The formula at lines 51-57 gives offsets from the centre of the sheet.
  Four 64 × 64 frames on a 2 × 2 grid get (-32, 32), (32, 32), (-32, -32)
  and (32, -32). `FourFrameSheet` proves these.
- Frames beyond the grid's capacity are not skipped. Line 139 creates a
  group for every frame. When line 96 reports the size the sheet was made
  from, those frames lie wholly below the sheet (`StagesOnSheet`,
  `OverflowBelowSheet`, and the last clause of `CreateCompositor`). When it
  reports a different size, they can land on the sheet:
  `UnsizedFramesAtCentre` shows the fifth frame of a 2 × 2 grid at the
  centre of a 128 × 128 sheet when line 96 reports 0 × 0.

## Model

| member | source | states |
|---|---|---|
| `Strings.EndsWith` | 3D_to_SpriteSheet.py:28 | `s.endswith(suffix)`, used at lines 20 and 28: `s` is at least as long as `suffix` and its final characters are `suffix`. `EndsWithConcat` characterises it. |
| `Strings.EndsWithConcat` | 3D_to_SpriteSheet.py:28 | `s` ends with `suffix` exactly when `s` is some string followed by `suffix`. |
| `Strings.ReplaceChar` | 3D_to_SpriteSheet.py:19 | Same length. Every backslash becomes `/` and every other character is kept. None of the replaced character is left. |
| `Strings.RFind` | 3D_to_SpriteSheet.py:21 | The result is -1 or an index of the character, and no later position holds it. So -1 means the character does not occur. |
| `Strings.DecimalRoundTrip` | 3D_to_SpriteSheet.py:73 | Reading back the digits of `f"{n}"` gives `n`. |
| `Strings.DecimalInjective` | 3D_to_SpriteSheet.py:73 | Different indices print differently. |
| `Strings.NameLeTotal` | 3D_to_SpriteSheet.py:30 | Any two names are comparable under Python's `<=` on `str`. |
| `Strings.NameLeAntisymmetric` | 3D_to_SpriteSheet.py:30 | Two names that are each `<=` the other are equal. |
| `Strings.NameLeTransitive` | 3D_to_SpriteSheet.py:30 | `<=` on names is transitive. |
| `Directory.OutputDirectoryString` | 3D_to_SpriteSheet.py:17-22 | The result has no backslash and is empty or ends in `/`. It is a prefix of the slash-normalised path, and equals that path when the path ends in `/`. Otherwise no `/` follows the cut, so the cut is just after the last `/`; with no `/` at all the result is empty. |
| `Directory.OutputDirectoryLongest` | 3D_to_SpriteSheet.py:20-21 | Every prefix of the normalised path that is empty or ends in `/` is a prefix of the result: the cut is at the last slash. |
| `Directory.OutputDirectoryIdempotent` | 3D_to_SpriteSheet.py:17-22 | Normalising an already normalised directory returns it unchanged. |
| `Frames.FilterCount` | 3D_to_SpriteSheet.py:27-29 | A name that ends in the extension is kept as often as the listing has it. Every other name is dropped. |
| `Frames.InsertSorted` | 3D_to_SpriteSheet.py:30 | Inserting a name into a sorted list adds exactly that name and keeps the list sorted. |
| `Frames.SortByNameSorted` | 3D_to_SpriteSheet.py:30 | Sorting yields an ascending permutation of its input. |
| `Frames.SortedUnique` | 3D_to_SpriteSheet.py:30 | Two ascending lists with the same names are equal, so sorting has one possible outcome. |
| `Frames.SortPrefixSorted` | 3D_to_SpriteSheet.py:29-30 | Sorting a list whose front part is already sorted gives the same result as sorting the whole list once. So sorting on every iteration changes nothing about the final list. |
| `Frames.GetImgFiles` | 3D_to_SpriteSheet.py:25-31 | The loop returns exactly the sorted filtered listing, whatever the listing. |
| `Frames.FramesOfListing` | 3D_to_SpriteSheet.py:25-31 | The returned list is ascending. It holds each name ending in the extension as many times as the listing does, and no other name. |
| `Pixels.RepeatAt` | 3D_to_SpriteSheet.py:36 | `s * n` is `n` times as long as `s`, and entry `k` is entry `k` modulo the length of `s`. |
| `Pixels.CreateBlankImage` | 3D_to_SpriteSheet.py:34-38 | The image has the given name and size, an alpha channel and no float buffer. Its pixel list has `4 * width * height` entries, and entry `k` is channel `k mod 4` of the colour. |
| `Pixels.BlankPixelIsColor` | 3D_to_SpriteSheet.py:36 | Each pixel `p < width * height`, that is entries `4p .. 4p+3`, is the fill colour. |
| `Pixels.DefaultSheetIsTransparent` | 3D_to_SpriteSheet.py:34-36 | With the default colour every channel of every pixel is 0, i.e. transparent black. |
| `Placement.SpritePosition` | 3D_to_SpriteSheet.py:51-57 | The offset of frame `index` from the sheet's centre, y upwards, with exact reals. Its properties are the lemmas below: `StepRight`, `StepDown`, `PositionByCell`, `FirstFrameTopLeft`, `InsideSheet`, `OverflowBelowSheet` and `DistinctFramesApart`. |
| `Placement.PositionByCell` | 3D_to_SpriteSheet.py:55-56 | x depends only on the column and y only on the row. For a positive frame size the converse also holds: x determines the column and y the row. |
| `Placement.StepRight` | 3D_to_SpriteSheet.py:55 | The next frame in the same row is one frame width to the right, at the same height. |
| `Placement.StepDown` | 3D_to_SpriteSheet.py:56 | The frame `columns` further on is one frame height lower, in the same column. |
| `Placement.FirstFrameTopLeft` | 3D_to_SpriteSheet.py:51-57 | Frame 0 is at `(-(columns-1)*w/2, (rows-1)*h/2)`, the top-left cell. |
| `Placement.RowInGrid` | 3D_to_SpriteSheet.py:56 | `index < columns*rows` holds exactly when the row `index // columns` is below `rows`. |
| `Placement.InsideSheet` | 3D_to_SpriteSheet.py:51-57 | For `index < columns*rows`, the frame's `w × h` rectangle lies inside the sheet `[-w*columns/2, w*columns/2] × [-h*rows/2, h*rows/2]`. |
| `Placement.OverflowBelowSheet` | 3D_to_SpriteSheet.py:56-57 | For `index >= columns*rows`, the frame's top edge is at or below the sheet's bottom edge. |
| `Placement.DistinctFramesApart` | 3D_to_SpriteSheet.py:51-57 | Two different frames are at least a frame width apart horizontally or a frame height apart vertically, so their rectangles do not overlap. |
| `Compositor.NodeGroup` | 3D_to_SpriteSheet.py:72-107 | The group for frame `index`: name `group_name + f"{index}"`, a sequence node starting at frame 0 with duration `frames` and offset `index`, and the transform `sprite_position(index, …)` of the size line 96 reads. `GroupNamesDistinct` and `ChainComputesFold` state what follows from it. |
| `Compositor.SheetSize` | 3D_to_SpriteSheet.py:132-136 | The sheet is `columns` frames wide and `rows` frames high. `StagesOnSheet` and `ChainOnOrBelowSheet` show that the grid's frames fit it. |
| `Compositor.ChainGroups` | 3D_to_SpriteSheet.py:137-145 | There is one stage per frame. Stage `i` is frame `i`'s group, with sequence offset `i`, transform `sprite_position(i, …)` and name `group_name + str(i)`. Stage 0 is fed by the blank sheet and stage `i` by stage `i-1`. The last group is returned. |
| `Compositor.CreateCompositor` | 3D_to_SpriteSheet.py:110-147 | Plans the whole sheet. See the list below the table. |
| `Compositor.GroupNamesDistinct` | 3D_to_SpriteSheet.py:73 | Different frames get different group names. |
| `Compositor.ChainComputesFold` | 3D_to_SpriteSheet.py:103-106 | The links the loop creates are acyclic. The output of stage `k` is frames `0..k` composited in ascending order over the blank sheet, the left fold. |
| `Compositor.FoldDrawsInFrameOrder` | 3D_to_SpriteSheet.py:137-145 | In the folded sheet, layer `k` from the bottom is frame `k`. Every frame is drawn once and later frames lie over earlier ones. |
| `Compositor.StagesOnSheet` | 3D_to_SpriteSheet.py:126-136 | Placed with the sheet's frame size, stages below the grid's capacity lie inside the sheet. Every later stage lies wholly below it. |
| `Compositor.ChainOnOrBelowSheet` | 3D_to_SpriteSheet.py:126-145 | Placed with the sheet's frame size, every stage of the chain is on the sheet within the grid's capacity and below it beyond. |
| `Compositor.UnsizedFramesAtCentre` | 3D_to_SpriteSheet.py:96 | With a reported frame size of 0 × 0, the fifth frame of a 2 × 2 grid sits at the centre, inside a 128 × 128 sheet. So the on-or-below guarantee needs line 96 to report the sheet's frame size. |
| `Compositor.FourFrameSheet` | 3D_to_SpriteSheet.py:51-57 | Four 64 × 64 frames on a 2 × 2 grid sit at (-32, 32), (32, 32), (-32, -32) and (32, -32). |
| `Compositor.FifthFrameOffSheet` | 3D_to_SpriteSheet.py:51-57 | A fifth frame on that grid sits at (-32, -96), one row below the sheet. |

`Compositor.CreateCompositor` states the following:

- The directory is the normalised one.
- The files are the sorted `.png` names of the listing, and there is at least one.
- The warning "Sprite sheet is too small. Increase rows or columns." is set exactly when `columns*rows` is less than the number of frames.
- The first frame is re-loaded from `directory + name` exactly when both of its reported dimensions are 0.
- The resolution, and the size of the transparent blank sheet, is the effective frame size times the grid.
- The stages form the frame chain, fed by the blank sheet.
- The last group is returned.
- When the size line 96 reads equals the size the sheet was made from, every stage within the grid's capacity puts its frame inside the sheet, and every later stage puts it below the sheet.

## Left out

- Every Blender call: creating images, nodes, groups, sockets and links, and setting render options. They are modelled only as the values the plan records. Node locations (editor layout only) are not recorded.
- `os.listdir`: the listing is the parameter `listing`. `image.size` at lines 125 and 96 and the size at line 130 are the parameters `firstSize`, `frameImageSize` and `loadedSize`.
- The pixel blending of Blender's Alpha Over node. The composite is a term (`Picture`) that records which frame goes where and in which order. The claims that an opaque top frame wins and that alpha 0 leaves the sheet unchanged need pixel semantics, so they are not stated.
- How Blender maps a sequence offset to a file: the model records offset `i` from the first file.
- `Compositor.CreateCompositor`: requires at least one `.png` name, so the empty listing is not modelled. In the source it ends either in the caught `RuntimeError` of lines 118-120, which sets the error "No usable images files in the current directory" and returns `None`, or in an `IndexError` at line 121.
- The `RuntimeError` path (lines 118-120). Whether and when `image.open` raises is the host's business.
- The scene's error and warning string slots and their reporting and clearing (lines 155-315): the operators, the panel, the property groups, and `register`/`unregister`. The plan's `warning` field is what line 127 writes.
- `NODE_OT_open_file_sequence.get_img_files` (lines 163-170): an unused duplicate that also rewrites `self.directory`.
- Floating-point rounding of the `* 0.5` offsets, because exact reals are used. Image channel values are reals too, not 8-bit integers.
- Two simplifications in the data:
  - Python's `{"name": file}` entries are modelled as the name strings themselves. Sorting by the `name` key is then sorting the names, and stability does not matter because equal keys are equal entries.
  - `columns` and `rows` are at least 1, as the property definitions at lines 262-273 ensure.
