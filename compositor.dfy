/** `create_compositor`: plans the sprite sheet, abstracted from Blender.
    What the host reports (the directory listing and image sizes) comes in
    as parameters; the nodes, groups and links it would create come out as
    values: the blank sheet, one stage per frame and the links between them. */
module Compositor {
  import opened Wrappers
  import opened Strings
  import opened Directory
  import opened Frames
  import opened Pixels
  import opened Placement

  /** An image size in pixels, as `image.size` reports it. */
  datatype Size = Size(width: nat, height: nat)

  /** The message line 127 writes into the scene's warning slot. */
  const TooSmallWarning := "Sprite sheet is too small. Increase rows or columns."

  /** A node whose output feeds the next stage: the Image node holding the
      blank sheet, or the group node built for frame `index`. */
  datatype NodeRef = SheetNode | GroupNode(index: nat)

  /** The Image node a group reads its frame from (lines 41-48): the image
      sequence starting at `image`, shifted by `frameOffset` frames. */
  datatype SequenceNode = SequenceNode(image: string, frameStart: int, frameDuration: nat, frameOffset: nat)

  /** A node group tree (lines 72-107): its sequence node goes through a
      Transform node moved by `transform` into the foreground of an Alpha
      Over node (factor 1.0) whose background is the group's input socket. */
  datatype GroupTree = GroupTree(name: string, sequence: SequenceNode, transform: Position)

  /** A group node of the scene tree: the tree it instantiates and the node
      linked into its input (line 144). */
  datatype Stage = Stage(tree: GroupTree, input: NodeRef)

  /** Everything `create_compositor` decides: the directory and files handed
      to `image.open`, the warning written (if any), the path re-loaded for
      its size (if any), the render resolution, the blank sheet, the stages in
      creation order and the node it returns. */
  datatype Plan = Plan(directory: string, files: seq<string>, warning: Option<string>,
                       reload: Option<string>, resolution: Size, sheet: Image,
                       stages: seq<Stage>, output: NodeRef)

  /** Lines 72-107 for frame `index`, without the host objects. */
  function NodeGroup(groupName: string, columns: nat, rows: nat, index: nat, imageName: string,
                     frames: nat, imageSize: Size): GroupTree
    requires columns >= 1
  {
    GroupTree(groupName + NatToDecimal(index), SequenceNode(imageName, 0, frames, index),
              SpritePosition(index, columns, rows, imageSize.width, imageSize.height))
  }

  /** Stage `i` is the group of frame `i`, fed by stage `i - 1`; stage 0 is
      fed by the blank sheet. */
  predicate ChainOfFrames(stages: seq<Stage>, n: nat, groupName: string, columns: nat, rows: nat,
                          imageName: string, imageSize: Size)
    requires columns >= 1
  {
    |stages| == n &&
    forall i :: 0 <= i < n ==>
      stages[i] == Stage(NodeGroup(groupName, columns, rows, i, imageName, n, imageSize),
                         if i == 0 then SheetNode else GroupNode(i - 1))
  }

  /** Lines 132-136: the sheet is `columns` frames wide and `rows` frames high. */
  function SheetSize(frame: Size, columns: nat, rows: nat): Size
  {
    Size(frame.width * columns, frame.height * rows)
  }

  /** Lines 137-145: one group node per frame, each linked to the output of
      the previous one; returns the stages and the last group node. */
  method ChainGroups(groupName: string, columns: nat, rows: nat, imageName: string, frames: nat,
                     imageSize: Size) returns (stages: seq<Stage>, last: NodeRef)
    requires columns >= 1 && frames >= 1
    ensures ChainOfFrames(stages, frames, groupName, columns, rows, imageName, imageSize)
    ensures last == GroupNode(frames - 1)
  {
    var prevSpriteNode := SheetNode;
    stages := [];
    for i := 0 to frames
      invariant |stages| == i
      invariant prevSpriteNode == if i == 0 then SheetNode else GroupNode(i - 1)
      invariant forall j :: 0 <= j < i ==>
        stages[j] == Stage(NodeGroup(groupName, columns, rows, j, imageName, frames, imageSize),
                           if j == 0 then SheetNode else GroupNode(j - 1))
    {
      var nodeGroup := NodeGroup(groupName, columns, rows, i, imageName, frames, imageSize);
      stages := stages + [Stage(nodeGroup, prevSpriteNode)];
      prevSpriteNode := GroupNode(i);
    }
    last := prevSpriteNode;
  }

  /** Lines 110-147, from the normalised directory onwards. `listing` is what
      `os.listdir` returns for that directory, `firstSize` the size Blender
      reports for the first frame (line 125), `loadedSize` the size of the
      image line 129 loads, and `frameImageSize` the size line 96 reads when
      it places each frame. */
  method CreateCompositor(directory: string, listing: seq<string>, groupName: string,
                          columns: nat, rows: nat, firstSize: Size, loadedSize: Size,
                          frameImageSize: Size) returns (plan: Plan)
    requires columns >= 1 && rows >= 1
    requires Filter(listing, ".png") != []
    ensures plan.directory == OutputDirectoryString(directory)
    ensures plan.files == SortByName(Filter(listing, ".png")) && |plan.files| >= 1
    ensures plan.warning == if columns * rows < |plan.files| then Some(TooSmallWarning) else None
    ensures plan.reload == if firstSize.width == 0 && firstSize.height == 0
                           then Some(plan.directory + plan.files[0]) else None
    ensures var sheet := SheetSize(if firstSize.width == 0 && firstSize.height == 0 then loadedSize else firstSize,
                                   columns, rows);
            plan.resolution == sheet && plan.sheet == CreateBlankImage(sheet.width, sheet.height)
    ensures ChainOfFrames(plan.stages, |plan.files|, groupName, columns, rows, plan.files[0], frameImageSize)
    ensures plan.output == GroupNode(|plan.files| - 1)
    ensures frameImageSize == (if firstSize.width == 0 && firstSize.height == 0 then loadedSize else firstSize)
            ==> StagesOnOrBelow(plan.stages, plan.resolution, frameImageSize, columns, rows)
  {
    var dir := OutputDirectoryString(directory);
    var imgFiles := GetImgFiles(listing);
    SortByNameSorted(Filter(listing, ".png"));
    assert |imgFiles| == |multiset(imgFiles)| == |Filter(listing, ".png")|;
    var frameDuration := |imgFiles|;
    var imgFile := imgFiles[0];
    var imgWidth, imgHeight := firstSize.width, firstSize.height;
    var warning := None;
    var capacity := columns * rows;
    if capacity < frameDuration {
      warning := Some(TooSmallWarning);
    }
    var reload := None;
    if imgWidth == 0 && imgHeight == 0 {
      reload := Some(dir + imgFile);
      imgWidth, imgHeight := loadedSize.width, loadedSize.height;
    }
    var resolution := SheetSize(Size(imgWidth, imgHeight), columns, rows);
    var sheet := CreateBlankImage(resolution.width, resolution.height);
    var stages, comp := ChainGroups(groupName, columns, rows, imgFile, frameDuration, frameImageSize);
    if frameImageSize == Size(imgWidth, imgHeight) {
      ChainOnOrBelowSheet(stages, frameDuration, groupName, columns, rows, imgFile, frameImageSize);
    }
    plan := Plan(dir, imgFiles, warning, reload, resolution, sheet, stages, comp);
  }

  /** Distinct frames get distinct group names (line 73). */
  lemma GroupNamesDistinct(groupName: string, columns: nat, rows: nat, i: nat, j: nat,
                           imageName: string, frames: nat, imageSize: Size)
    requires columns >= 1 && i != j
    ensures NodeGroup(groupName, columns, rows, i, imageName, frames, imageSize).name
         != NodeGroup(groupName, columns, rows, j, imageName, frames, imageSize).name
  {
    var a, b := NatToDecimal(i), NatToDecimal(j);
    if groupName + a == groupName + b {
      assert a == (groupName + a)[|groupName|..];
      assert b == (groupName + b)[|groupName|..];
      DecimalInjective(i, j);
    }
  }

  /** What an output socket carries, as a term: the blank sheet with frames
      alpha-composited over it, the last one on top. The blending of pixels is
      Blender's; this records which frame goes where and in which order. */
  datatype Picture = BlankSheet | Over(background: Picture, frame: nat, at: Position)

  /** Every stage is fed by the sheet or by an earlier stage. */
  predicate LinksBackward(stages: seq<Stage>)
  {
    forall i :: 0 <= i < |stages| && stages[i].input.GroupNode? ==> stages[i].input.index < i
  }

  /** The picture the output of `node` carries when the stages are evaluated. */
  function Evaluate(stages: seq<Stage>, node: NodeRef): Picture
    requires LinksBackward(stages)
    requires node.GroupNode? ==> node.index < |stages|
    decreases if node.GroupNode? then node.index + 1 else 0
  {
    match node
    case SheetNode => BlankSheet
    case GroupNode(i) =>
      Over(Evaluate(stages, stages[i].input), stages[i].tree.sequence.frameOffset, stages[i].tree.transform)
  }

  /** The sheet of `n` frames as a left fold: starting from the blank sheet,
      frame `i` is composited at its grid position over frames `0..i-1`. */
  function SheetFold(n: nat, columns: nat, rows: nat, imageSize: Size): Picture
    requires columns >= 1
  {
    if n == 0 then BlankSheet
    else Over(SheetFold(n - 1, columns, rows, imageSize), n - 1,
              SpritePosition(n - 1, columns, rows, imageSize.width, imageSize.height))
  }

  /** The frames of a picture from the bottom layer to the top one. */
  function Layers(p: Picture): seq<nat>
  {
    match p
    case BlankSheet => []
    case Over(background, frame, _) => Layers(background) + [frame]
  }

  /** The chain the loop builds computes the left fold: the output of stage
      `k` is frames `0..k` composited in ascending order over the blank sheet. */
  lemma {:induction false} ChainComputesFold(stages: seq<Stage>, n: nat, groupName: string, columns: nat,
                                             rows: nat, imageName: string, imageSize: Size, k: nat)
    requires columns >= 1 && k < n
    requires ChainOfFrames(stages, n, groupName, columns, rows, imageName, imageSize)
    ensures LinksBackward(stages)
    ensures Evaluate(stages, GroupNode(k)) == SheetFold(k + 1, columns, rows, imageSize)
  {
    if k > 0 {
      ChainComputesFold(stages, n, groupName, columns, rows, imageName, imageSize, k - 1);
    }
  }

  /** In the folded sheet layer `k` is frame `k`: every frame is drawn exactly
      once and later frames lie over earlier ones. */
  lemma {:induction false} FoldDrawsInFrameOrder(n: nat, columns: nat, rows: nat, imageSize: Size)
    requires columns >= 1
    ensures |Layers(SheetFold(n, columns, rows, imageSize))| == n
    ensures forall k :: 0 <= k < n ==> Layers(SheetFold(n, columns, rows, imageSize))[k] == k
  {
    if n > 0 {
      FoldDrawsInFrameOrder(n - 1, columns, rows, imageSize);
    }
  }

  /** When the frames are placed with the size the sheet was made for, the
      first `columns * rows` stages put their frame inside the sheet and every
      later stage puts it wholly below the sheet: the frames a too-small grid
      cannot hold are composited where nothing of them shows. */
  lemma StagesOnSheet(stages: seq<Stage>, n: nat, groupName: string, columns: nat, rows: nat,
                      imageName: string, frame: Size, k: nat)
    requires columns >= 1 && k < n
    requires ChainOfFrames(stages, n, groupName, columns, rows, imageName, frame)
    ensures var p, sheet := stages[k].tree.transform, SheetSize(frame, columns, rows);
            var halfW, halfH := sheet.width as real / 2.0, sheet.height as real / 2.0;
            var w, h := frame.width as real, frame.height as real;
            (k < columns * rows ==>
               -halfW <= p.x - w / 2.0 && p.x + w / 2.0 <= halfW &&
               -halfH <= p.y - h / 2.0 && p.y + h / 2.0 <= halfH) &&
            (k >= columns * rows ==> p.y + h / 2.0 <= -halfH)
  {
    var p := SpritePosition(k, columns, rows, frame.width, frame.height);
    assert stages[k].tree.transform == p;
    var sheet := SheetSize(frame, columns, rows);
    assert sheet.width as real == frame.width as real * columns as real by {
      RealMul(frame.width, columns);
    }
    assert sheet.height as real == frame.height as real * rows as real by {
      RealMul(frame.height, rows);
    }
    if k < columns * rows {
      InsideSheet(k, columns, rows, frame.width, frame.height);
    } else {
      OverflowBelowSheet(k, columns, rows, frame.width, frame.height);
    }
  }

  /** A frame placed at `p` with size `frame` lies inside the centred sheet of
      size `sheet` when `inGrid`, and wholly below its bottom edge otherwise. */
  predicate PlacedOnOrBelow(p: Position, sheet: Size, frame: Size, inGrid: bool)
  {
    var halfW, halfH := sheet.width as real / 2.0, sheet.height as real / 2.0;
    var w, h := frame.width as real, frame.height as real;
    (inGrid ==>
       -halfW <= p.x - w / 2.0 && p.x + w / 2.0 <= halfW &&
       -halfH <= p.y - h / 2.0 && p.y + h / 2.0 <= halfH) &&
    (!inGrid ==> p.y + h / 2.0 <= -halfH)
  }

  /** Every stage within the capacity of the `columns` by `rows` grid puts its
      frame on the sheet, and every later stage puts it below the sheet. */
  predicate StagesOnOrBelow(stages: seq<Stage>, sheet: Size, frame: Size, columns: nat, rows: nat)
  {
    forall k :: 0 <= k < |stages| ==> PlacedOnOrBelow(stages[k].tree.transform, sheet, frame, k < columns * rows)
  }

  /** `StagesOnSheet` for every stage of a chain at once. */
  lemma ChainOnOrBelowSheet(stages: seq<Stage>, n: nat, groupName: string, columns: nat, rows: nat,
                            imageName: string, frame: Size)
    requires columns >= 1
    requires ChainOfFrames(stages, n, groupName, columns, rows, imageName, frame)
    ensures StagesOnOrBelow(stages, SheetSize(frame, columns, rows), frame, columns, rows)
  {
    forall k | 0 <= k < |stages|
      ensures PlacedOnOrBelow(stages[k].tree.transform, SheetSize(frame, columns, rows), frame, k < columns * rows)
    {
      StagesOnSheet(stages, n, groupName, columns, rows, imageName, frame, k);
    }
  }

  /** Frames of size 0 x 0 on a 2 x 2 grid are all placed at the centre: when
      line 96 reports a size other than the one the sheet was made from, the
      fifth frame of a too-small grid lands on the sheet. */
  lemma UnsizedFramesAtCentre()
    ensures SpritePosition(4, 2, 2, 0, 0) == Position(0.0, 0.0)
    ensures PlacedOnOrBelow(SpritePosition(4, 2, 2, 0, 0), SheetSize(Size(64, 64), 2, 2), Size(0, 0), true)
  {
  }

  /** Four 64 x 64 frames on a 2 x 2 grid: the centres of the four cells of a
      128 x 128 sheet, in reading order. */
  lemma FourFrameSheet()
    ensures SpritePosition(0, 2, 2, 64, 64) == Position(-32.0, 32.0)
    ensures SpritePosition(1, 2, 2, 64, 64) == Position(32.0, 32.0)
    ensures SpritePosition(2, 2, 2, 64, 64) == Position(-32.0, -32.0)
    ensures SpritePosition(3, 2, 2, 64, 64) == Position(32.0, -32.0)
  {
  }

  /** Five frames on a 2 x 2 grid: the fifth is placed one row below the
      sheet, where it covers nothing. */
  lemma FifthFrameOffSheet()
    ensures SpritePosition(4, 2, 2, 64, 64) == Position(-32.0, -96.0)
  {
  }
}
