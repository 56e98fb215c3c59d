# Loss node of the channel-first node graph, in Dafny

This project models `LossFunc1D`, the terminal loss node of the
channel-first neural-network node graph (`lib32_ch1st/Loss.py`), together
with the arithmetic of its loss variants.

A loss node merges the outputs of one or more predecessor nodes into one
buffer per data set:

- `trY` holds the training outputs;
- `teY` holds the test outputs;
- `prY` holds the prediction outputs.

Every buffer is laid out channel first as (channels, rows, batch). A flat shape of n gives n rows; a grid shape (h, w), which the source allocates as a 4-D (channels, h, w, batch) buffer, is flattened here to h·w rows, row by row.

The node's operations, as modelled:

- `addPrevSets` registers predecessors. Each one records this node in its `nextSets` and records its own index in `nextInd`.
- `compile` gives predecessor i the contiguous channel range `[startYs[i], endYs[i])` as prefix sums of the predecessors' channel counts.
- `prePropX` allocates the buffers for a batch size.
- `pushX` copies a predecessor's fragment into its range.
- `pullGrad` evaluates the gradient of the loss into `gradY`, then hands every predecessor, in order, its slice of `gradY`.
- The accuracy functions count predictions:
  - with one row, they threshold outputs and targets at 0.5;
  - otherwise, they compare first-occurrence argmax positions.
- The mean-loss functions divide the loss by the batch size, the last axis of the target.

The loss variants are Mse1D, Bce1D, ZeroOneBce1D, Cce1D and OneHotCce1D:

- Their gradients are modelled over `real`.
- ε is `LOSS_E0`, the smallest positive float32, 2^-149, kept exact.
- The mean squared error loss is modelled as `trLoss`, `teLoss`, `base`, `baseVec` and, for the flat layout, `lossVec`.

The files:

| file | module | contents |
|---|---|---|
| `tensors.dfy` | `Tensors` | buffers as nested sequences; sums over channels, rows and samples |
| `layout.dfy` | `Layout` | the channel table and its properties, slicing, pushing, back-links |
| `accuracy.dfy` | `Accuracy` | thresholded and argmax accuracy counts |
| `losses.dfy` | `Losses` | squared-error loss and the gradient formulas of the five variants |
| `loss_node.dfy` | `LossNode` | the `LossFunc1D` class, the predecessor record `PrevSet`, and the loops |

`LossFunc1D` is a class. Its buffers are `array<Channel>` fields that `prePropX` reallocates and that `pushX` and `evalGrad` write in place. Its predecessor list and the predecessors' back-links are `seq` fields that `addPrevSets` extends.

The loss variant is the constant field `kind`. Python subclasses map to values of `Losses.LossKind`.

## Model

| member | source | states |
|---|---|---|
| LossNode.LossFunc1D.constructor | NeuralNetwork/Codes/NodeGraph/lib32_ch1st/Loss.py:55-80 | A new node has an unknown shape, no channels, no predecessors, an empty channel table, empty targets, zero batch sizes, and empty buffers that are four distinct arrays. |
| LossNode.LossFunc1D.AddPrevSets | NeuralNetwork/Codes/NodeGraph/lib32_ch1st/Loss.py:136-140 | The arguments are appended to `prevSets` in order. Each argument's `nextInd` gets the index it occupies in the new list, and its `nextSets` gets this node, once per occurrence. Nothing else changes. |
| LossNode.Register | NeuralNetwork/Codes/NodeGraph/lib32_ch1st/Loss.py:137-140 | The loop of `addPrevSets`: the new list is old list + arguments, with the same back-link updates, proved through the loop invariant. |
| Layout.PositionsExact | NeuralNetwork/Codes/NodeGraph/lib32_ch1st/Loss.py:138 | The indices appended to a predecessor's `nextInd` are exactly the positions where it sits in the extended list: each holds it, every occurrence is listed, and they are strictly increasing. |
| Layout.PositionsPointBack | NeuralNetwork/Codes/NodeGraph/lib32_ch1st/Loss.py:138-139 | Every recorded index points back, within the extended list, at the predecessor that recorded it. |
| LossNode.LossFunc1D.Compile | NeuralNetwork/Codes/NodeGraph/lib32_ch1st/Loss.py:142-154 | Fails, changing nothing, exactly when some predecessor's shape is unknown. Raises, changing nothing, exactly when all shapes are known but there is no predecessor. Otherwise it takes the first predecessor's shape, sets the table to the prefix sums of the channel counts, and sets `ychs` to their total. |
| LossNode.KnownShapes | NeuralNetwork/Codes/NodeGraph/lib32_ch1st/Loss.py:143-145 | The first loop of `compile` answers true exactly when every predecessor's shape is known. |
| LossNode.LayTable | NeuralNetwork/Codes/NodeGraph/lib32_ch1st/Loss.py:147-153 | The table-building loop fills `startYs`/`endYs` with the prefix-sum table and ends with the channel total. |
| Layout.StartsAt | NeuralNetwork/Codes/NodeGraph/lib32_ch1st/Loss.py:150-152 | `startYs[i]` is the number of channels of predecessors 0..i-1. |
| Layout.EndAt | NeuralNetwork/Codes/NodeGraph/lib32_ch1st/Loss.py:150-153 | `endYs[i]` is the channel total of predecessors 0..i. |
| Layout.LayoutChain | NeuralNetwork/Codes/NodeGraph/lib32_ch1st/Loss.py:147-154 | `startYs[0] = 0`; `startYs[i+1] = endYs[i]`; the last end is the total `ychs`. |
| Layout.RangesOrdered | NeuralNetwork/Codes/NodeGraph/lib32_ch1st/Loss.py:147-154 | Ranges come in predecessor order and never overlap. |
| Layout.RangeInside | NeuralNetwork/Codes/NodeGraph/lib32_ch1st/Loss.py:147-154 | Every range lies inside `[0, ychs]`. |
| Layout.TableWithin | NeuralNetwork/Codes/NodeGraph/lib32_ch1st/Loss.py:147-154 | The table is a valid set of ranges into a buffer of `ychs` channels. |
| Layout.Owner | NeuralNetwork/Codes/NodeGraph/lib32_ch1st/Loss.py:147-154 | Every channel below `ychs` lies in some predecessor's range, so the ranges cover `[0, ychs)`. |
| Layout.OwnerUnique | NeuralNetwork/Codes/NodeGraph/lib32_ch1st/Loss.py:147-154 | No channel lies in two ranges. |
| LossNode.Allocate | NeuralNetwork/Codes/NodeGraph/lib32_ch1st/Loss.py:157-159 | `np.empty` gives a fresh buffer of shape (channels, rows, batch). |
| LossNode.LossFunc1D.PrePropBoth | NeuralNetwork/Codes/NodeGraph/lib32_ch1st/Loss.py:156-163 | Fresh train and test buffers of shape (ychs, rows, size), plus a fresh `gradY` of the train buffer's shape. The buffers stay distinct, and the table, targets and prediction buffer are kept. |
| LossNode.LossFunc1D.PrePropTr | NeuralNetwork/Codes/NodeGraph/lib32_ch1st/Loss.py:165-170 | A fresh train buffer and a `gradY` of its shape. The test and prediction buffers are kept. |
| LossNode.LossFunc1D.PrePropTe | NeuralNetwork/Codes/NodeGraph/lib32_ch1st/Loss.py:172-176 | A fresh test buffer. `gradY`, `trY` and `prY` are not touched. |
| LossNode.LossFunc1D.PrePropPr | NeuralNetwork/Codes/NodeGraph/lib32_ch1st/Loss.py:178-182 | A fresh prediction buffer. `gradY`, `trY` and `teY` are not touched. |
| LossNode.Fill | NeuralNetwork/Codes/NodeGraph/lib32_ch1st/Loss.py:187 | The slice assignment overwrites exactly the channels from `start` on with the fragment. |
| Layout.Place | NeuralNetwork/Codes/NodeGraph/lib32_ch1st/Loss.py:187 | Channels inside `[start, start + len(frag))` hold the fragment; every other channel keeps its value. |
| LossNode.LossFunc1D.PushTr | NeuralNetwork/Codes/NodeGraph/lib32_ch1st/Loss.py:184-187 | `trY` becomes the old `trY` with channels `[startYs[i], endYs[i])` replaced by the fragment and the rest unchanged. |
| LossNode.LossFunc1D.PushTe | NeuralNetwork/Codes/NodeGraph/lib32_ch1st/Loss.py:189-190 | The same for `teY`. |
| LossNode.LossFunc1D.PushPr | NeuralNetwork/Codes/NodeGraph/lib32_ch1st/Loss.py:192-193 | The same for `prY`. |
| LossNode.LossFunc1D.PushBoth | NeuralNetwork/Codes/NodeGraph/lib32_ch1st/Loss.py:195-199 | The same range of both `trY` and `teY` is replaced by the two fragments. |
| Layout.PushAllFills | NeuralNetwork/Codes/NodeGraph/lib32_ch1st/Loss.py:184-187 | Pushing every predecessor's fragment into its range, in order, leaves the buffer equal to the fragments concatenated in predecessor order, whatever it held before. |
| LossNode.LossFunc1D.EvalGrad | NeuralNetwork/Codes/NodeGraph/lib32_ch1st/Loss.py:246-365 | `gradY` becomes the variant's gradient at (`trY`, `trT`) in every entry: `y - t` for Mse1D, `(y - t) / (y(1 - y) + ε)` for Bce1D and ZeroOneBce1D, `-t / (y + ε)` for Cce1D; for OneHotCce1D the zero fill followed by the masked assignment gives 0 where the target is zero and `-1/y` elsewhere. |
| Losses.GradTensor | NeuralNetwork/Codes/NodeGraph/lib32_ch1st/Loss.py:272-275 | The gradient buffer has the output's shape, and each entry is the variant's formula at that entry, for example `(y - t) / (y(1 - y) + ε)` for Bce1D. |
| LossNode.Scatter | NeuralNetwork/Codes/NodeGraph/lib32_ch1st/Loss.py:365 | Entries whose target is nonzero get `-1/y`; the others keep their value. |
| LossNode.ScatterIsOneHotGrad | NeuralNetwork/Codes/NodeGraph/lib32_ch1st/Loss.py:362-365 | Zero-fill followed by the scatter equals the OneHotCce1D gradient formula on the channel. |
| LossNode.ZeroChannel | NeuralNetwork/Codes/NodeGraph/lib32_ch1st/Loss.py:363 | `fill(0)` keeps the shape and zeroes every entry. |
| Losses.ZeroOneBceGradIsBce | NeuralNetwork/Codes/NodeGraph/lib32_ch1st/Loss.py:303-307 | ZeroOneBce1D's gradient is defined wherever Bce1D's is, and equals it. |
| Losses.LossE0FloorDefined | NeuralNetwork/Codes/NodeGraph/lib32_ch1st/Loss.py:12 | With ε = `LOSS_E0` > 0, the Bce/ZeroOneBce/Cce gradients are defined for outputs in [0, 1]. |
| Losses.EpsFloorDefined | NeuralNetwork/Codes/NodeGraph/lib32_ch1st/Loss.py:272-275 | For outputs in [0, 1] and ε > 0, the Bce/ZeroOneBce/Cce divisors are never zero, so the gradient is defined. |
| Losses.BceGradSign | NeuralNetwork/Codes/NodeGraph/lib32_ch1st/Loss.py:272-275 | For y in [0, 1], the Bce1D gradient is positive iff y > t, and zero iff y = t. |
| Losses.OneHotCceAgainstCce | NeuralNetwork/Codes/NodeGraph/lib32_ch1st/Loss.py:362-365 | For a 0/1 target, the one-hot gradient is 0 where t = 0 and `-1/y` where t = 1. That is steeper than Cce1D's `-t/(y + ε)` and agrees with it where t = 0. |
| Losses.LossE0Positive | NeuralNetwork/Codes/NodeGraph/lib32_ch1st/Loss.py:12 | ε = 2^-149 lies in (0, 1]. |
| LossNode.LossFunc1D.PullGrad | NeuralNetwork/Codes/NodeGraph/lib32_ch1st/Loss.py:201-204 | `gradY` becomes the gradient. Every predecessor has appended, in predecessor order, the slices `gradY[startYs[i]:endYs[i]]` for the positions i it occupies; its other fields are kept. |
| LossNode.HandOut | NeuralNetwork/Codes/NodeGraph/lib32_ch1st/Loss.py:203-204 | The loop of `pullGrad`: predecessor i is handed slice i, in order, proved through the loop invariant. |
| LossNode.PrevSet.PullGrad | NeuralNetwork/Codes/NodeGraph/lib32_ch1st/Loss.py:204 | The predecessor, as a sink, records the slice it is handed and changes nothing else. |
| Layout.Slices | NeuralNetwork/Codes/NodeGraph/lib32_ch1st/Loss.py:204 | Slice i is `buf[startYs[i]:endYs[i]]`, one per predecessor. |
| Layout.SlicesReassemble | NeuralNetwork/Codes/NodeGraph/lib32_ch1st/Loss.py:201-204 | Concatenating the handed-out slices in predecessor order reproduces `gradY`. |
| Layout.HandedDistinct | NeuralNetwork/Codes/NodeGraph/lib32_ch1st/Loss.py:203-204 | When no predecessor is registered twice, predecessor i receives exactly slice i. |
| Layout.HandedAbsent | NeuralNetwork/Codes/NodeGraph/lib32_ch1st/Loss.py:203-204 | A node that is not a predecessor receives nothing. |
| LossNode.LossFunc1D.TrLoss | NeuralNetwork/Codes/NodeGraph/lib32_ch1st/Loss.py:238-240 | Mse1D `trLoss` is ≥ 0, and it is 0 exactly when `trY = trT`. |
| LossNode.LossFunc1D.TeLoss | NeuralNetwork/Codes/NodeGraph/lib32_ch1st/Loss.py:242-244 | The same for `teLoss`. |
| Losses.MseLoss | NeuralNetwork/Codes/NodeGraph/lib32_ch1st/Loss.py:238-244 | ½Σ(y−t)² over the whole buffer is ≥ 0, and it is 0 exactly when y = t. |
| Losses.SqRow | NeuralNetwork/Codes/NodeGraph/lib32_ch1st/Loss.py:235-236 | Entrywise squared errors are ≥ 0, and they are zero exactly where y equals t. |
| Losses.SqTensorZero | NeuralNetwork/Codes/NodeGraph/lib32_ch1st/Loss.py:239-240 | All squared errors vanish iff the buffers are equal. |
| Losses.MseLossVec | NeuralNetwork/Codes/NodeGraph/lib32_ch1st/Loss.py:234-236 | `lossVec` has one value per sample (flat layout); `Losses.MseLossVecAt` states each value. |
| Losses.MseLossVecAt | NeuralNetwork/Codes/NodeGraph/lib32_ch1st/Loss.py:234-240 | Entry s of `lossVec` is the loss `trLoss` would give for sample s taken on its own. |
| Losses.MseLossVecBounds | NeuralNetwork/Codes/NodeGraph/lib32_ch1st/Loss.py:231-236 | Every per-sample loss is ≥ 0, and each is 0 for a perfect prediction. |
| Losses.MseLossVecSums | NeuralNetwork/Codes/NodeGraph/lib32_ch1st/Loss.py:234-240 | The per-sample `lossVec` values sum to `trLoss`. |
| Tensors.SampleTotalsAddUp | NeuralNetwork/Codes/NodeGraph/lib32_ch1st/Loss.py:236 | Summing over axes (0, 1) and then over the batch gives the total over the whole buffer. |
| Tensors.SampleOfTotal | NeuralNetwork/Codes/NodeGraph/lib32_ch1st/Loss.py:236 | Summing axes (0, 1) at sample s is the total of that sample taken on its own. |
| Tensors.SumScale | NeuralNetwork/Codes/NodeGraph/lib32_ch1st/Loss.py:236 | Scaling every per-sample value by ½ scales their sum by ½. |
| Losses.MseBase | NeuralNetwork/Codes/NodeGraph/lib32_ch1st/Loss.py:228-229 | `base` is the loss of a perfect prediction, and no prediction has a smaller loss. |
| Losses.MseBaseVec | NeuralNetwork/Codes/NodeGraph/lib32_ch1st/Loss.py:231-232 | `baseVec` is the per-sample loss of a perfect prediction at every sample, and no prediction has a smaller per-sample loss. |
| Tensors.SampleTotalsNonNegative | NeuralNetwork/Codes/NodeGraph/lib32_ch1st/Loss.py:236 | Summing a non-negative buffer over axes (0, 1) gives non-negative per-sample totals, all zero when the buffer is. |
| Losses.MseLossSetAt | NeuralNetwork/Codes/NodeGraph/lib32_ch1st/Loss.py:238-240 | Changing one output entry changes the loss by half the change of that entry's squared error. |
| Losses.MseGradIsDerivative | NeuralNetwork/Codes/NodeGraph/lib32_ch1st/Loss.py:246-248 | `y - t` is the derivative of the loss: moving one entry by h changes the loss by exactly h(y−t) + h²/2. |
| Losses.MseGradZeroIff | NeuralNetwork/Codes/NodeGraph/lib32_ch1st/Loss.py:246-248 | The Mse1D gradient is zero everywhere iff `trY = trT`. |
| LossNode.LossFunc1D.TrLossMean | NeuralNetwork/Codes/NodeGraph/lib32_ch1st/Loss.py:98-99 | The divisor is the target's last axis, `trBatch` (the target's rows are `trBatch` long). It is defined iff the batch is non-empty. Its value times the batch size is `trLoss`, and it is ≥ 0 with 0 iff the prediction is perfect. |
| LossNode.LossFunc1D.TeLossMean | NeuralNetwork/Codes/NodeGraph/lib32_ch1st/Loss.py:117-118 | The same for `teLossMean`. |
| LossNode.Mean | NeuralNetwork/Codes/NodeGraph/lib32_ch1st/Loss.py:99 | The quotient times the batch size is the total. It is ≥ 0 for a non-negative total, and 0 iff the total is 0. |
| Accuracy.AgreeRow | NeuralNetwork/Codes/NodeGraph/lib32_ch1st/Loss.py:103 | Counts the samples where `y > 0.5` equals `t > 0.5`: the count is exactly the size of the set of agreeing positions. It is the row length iff all samples agree, and 0 iff none does. |
| Accuracy.AgreeTable | NeuralNetwork/Codes/NodeGraph/lib32_ch1st/Loss.py:103 | The count over a (channels, batch) table is exactly the number of agreeing (channel, sample) pairs, so at most channels × batch. It equals channels × batch iff every entry agrees, and 0 iff none does. |
| Accuracy.Squeeze | NeuralNetwork/Codes/NodeGraph/lib32_ch1st/Loss.py:103 | A one-row buffer seen as a (channels, batch) table: entry c is row 0 of channel c. |
| Accuracy.ArgMaxIsFirstMax | NeuralNetwork/Codes/NodeGraph/lib32_ch1st/Loss.py:105 | `argmax` picks a maximal entry, the first one among equal maxima. |
| Accuracy.Classes | NeuralNetwork/Codes/NodeGraph/lib32_ch1st/Loss.py:105 | One class per sample of a channel: entry s is the argmax over the rows of sample s. |
| Accuracy.CountSame | NeuralNetwork/Codes/NodeGraph/lib32_ch1st/Loss.py:105 | The count is exactly the number of positions where two class sequences agree: their length iff they agree everywhere, 0 iff nowhere. |
| Accuracy.CountSameTable | NeuralNetwork/Codes/NodeGraph/lib32_ch1st/Loss.py:105 | The same over (channels, batch) class tables: exactly the number of agreeing (channel, sample) pairs; channels × batch iff they agree everywhere, 0 iff nowhere. |
| Accuracy.ClassTable | NeuralNetwork/Codes/NodeGraph/lib32_ch1st/Loss.py:105 | `argmax(1)` gives one class per (channel, sample): entry (c, s) is the argmax of sample s over the rows of channel c. |
| Accuracy.ArgMaxTensor | NeuralNetwork/Codes/NodeGraph/lib32_ch1st/Loss.py:105 | The argmax count is exactly the number of (channel, sample) pairs whose output and target classes agree, so at most channels × batch. It equals channels × batch iff they agree at every pair, and 0 iff at none. |
| Accuracy.AccurateCount | NeuralNetwork/Codes/NodeGraph/lib32_ch1st/Loss.py:101-105 | It is defined iff there is at least one row; an argmax over an empty axis raises. The count is exactly the number of (channel, sample) hits (same side of 0.5 with one row, same argmax otherwise), so at most channels × batch. It equals channels × batch iff every pair is a hit, and 0 iff none is. |
| Accuracy.OneRowHits | NeuralNetwork/Codes/NodeGraph/lib32_ch1st/Loss.py:102-103 | With one row, the hits are exactly the agreeing pairs of the squeezed table. |
| Accuracy.ClassHits | NeuralNetwork/Codes/NodeGraph/lib32_ch1st/Loss.py:104-105 | With several rows, the hits are exactly the pairs with equal classes. |
| Accuracy.AccuracyOf | NeuralNetwork/Codes/NodeGraph/lib32_ch1st/Loss.py:107-111 | It is defined iff there are rows and samples, and then it is the accurate count divided by the batch size. It lies in [0, channels], so in [0, 1] for one channel. It is the number of channels iff every (channel, sample) is a hit, and 0 iff none is. |
| Accuracy.DivIff | NeuralNetwork/Codes/NodeGraph/lib32_ch1st/Loss.py:109 | The count divided by the batch size is k iff the count is k × batch, and 0 iff the count is 0. |
| Accuracy.PerfectCount | NeuralNetwork/Codes/NodeGraph/lib32_ch1st/Loss.py:101-105 | A perfect prediction is counted right at every (channel, sample) pair. |
| Accuracy.PerfectAccuracy | NeuralNetwork/Codes/NodeGraph/lib32_ch1st/Loss.py:107-111 | A perfect prediction has accuracy equal to the number of channels. |
| LossNode.LossFunc1D.TrAccurateCount | NeuralNetwork/Codes/NodeGraph/lib32_ch1st/Loss.py:101-105 | It is defined iff `ydim > 0`, and then it is exactly the number of (channel, sample) hits, at most `ychs × batch`. It is `ychs × batch` iff every pair is a hit, and 0 iff none is; when `trY = trT` it is `ychs × batch`. |
| LossNode.LossFunc1D.TeAccurateCount | NeuralNetwork/Codes/NodeGraph/lib32_ch1st/Loss.py:120-124 | The same for the test buffer. |
| LossNode.LossFunc1D.TrAccuracy | NeuralNetwork/Codes/NodeGraph/lib32_ch1st/Loss.py:107-111 | It is defined iff there are rows and samples, and then it is `trAccurateCount` divided by the batch size, in [0, ychs]. It is `ychs` iff every (channel, sample) is a hit, and 0 iff none is; it is `ychs` when `trY = trT`. |
| LossNode.LossFunc1D.TeAccuracy | NeuralNetwork/Codes/NodeGraph/lib32_ch1st/Loss.py:126-130 | The same for the test buffer. |

## Left out

- Floating point: float32 arithmetic, rounding, infinities and NaN are not modelled. Values are exact reals, and ε = 2^-149 is exact.
- The logarithmic losses are not modelled. They are the module functions `be` … `oneHotCce` and the `lossVec`/`trLoss`/`teLoss`/`base`/`baseVec` of Bce1D, ZeroOneBce1D, Cce1D and OneHotCce1D. Dafny has no logarithm, and the ε floor is a floating-point effect. Their gradients are modelled.
- LossNode.LossFunc1D.TrLoss: requires `kind == Mse`; the other variants' losses are logarithmic.
- LossNode.LossFunc1D.TeLoss: requires `kind == Mse`, for the same reason.
- LossNode.LossFunc1D.TrLossMean: requires `kind == Mse`, for the same reason.
- LossNode.LossFunc1D.TeLossMean: requires `kind == Mse`, for the same reason.
- LossNode.LossFunc1D.TrLossMean: an empty batch gives `None`; the source returns the float quotient 0/0, which is NaN.
- Losses.MseLossVec: flat layout only. For a grid shape the buffer is 4-D and the source's sum over axes (0, 1) leaves a (w, batch) array, not one value per sample.
- LossNode.LossFunc1D.TrAccurateCount: only the flat (channels, rows, batch) layout is modelled (a known `Flat` shape is required). The 2-D grid layout is 4-D, so its axis 1 is the grid height.
- LossNode.LossFunc1D.TeAccurateCount: flat layout only, for the same reason.
- LossNode.LossFunc1D.TrAccuracy: flat layout only, for the same reason.
- LossNode.LossFunc1D.TeAccuracy: flat layout only, for the same reason.
- LossNode.LossFunc1D.EvalGrad: requires every divisor to be nonzero; a float division by zero would give infinity or NaN. `Losses.LossE0FloorDefined` shows that for outputs in [0, 1] this always holds for Bce1D, ZeroOneBce1D and Cce1D.
- LossNode.LossFunc1D.EvalGrad: requires `gradY`, `trY` and `trT` to have one shape. numpy raises on mismatched `out=` shapes; broadcasting is not modelled.
- LossNode.LossFunc1D.PushTr requires three things:
  - `index` names a table entry (negative Python indices are not modelled);
  - the range lies inside the buffer;
  - the fragment has as many channels as the range.

  Outside these, numpy raises `IndexError`/`ValueError` unless a size-1 axis broadcasts (a one-channel fragment written into every channel of a wider range) or the slice is clipped at the end of the buffer; neither case is modelled. Neither arises when each predecessor pushes exactly its own channels into a buffer allocated after `compile`. The per-channel shape of the fragment is not checked, since broadcasting is not modelled.
- LossNode.LossFunc1D.PushTe: the same requirements as `PushTr`, for `teY`.
- LossNode.LossFunc1D.PushPr: the same requirements as `PushTr`, for `prY`.
- LossNode.LossFunc1D.PushBoth: the same requirements as `PushTr`, for both buffers.
- LossNode.Allocate: a grid shape (h, w) gives (channels, h·w, batch), the source's 4-D (channels, h, w, batch) buffer flattened row by row. Channel slicing, the elementwise gradient and the total loss are unaffected; per-axis operations on grid buffers are not modelled.
- LossNode.LossFunc1D.PrePropBoth: grid buffers are flattened to h·w rows, as for `Allocate`.
- LossNode.LossFunc1D.PrePropTr: grid buffers are flattened to h·w rows, as for `Allocate`.
- LossNode.LossFunc1D.PrePropTe: grid buffers are flattened to h·w rows, as for `Allocate`.
- LossNode.LossFunc1D.PrePropPr: grid buffers are flattened to h·w rows, as for `Allocate`.
- LossNode.LossFunc1D.PrePropBoth: requires a known shape. `UNKNOWN` is defined in `NodeSet.py`, which is not part of this model.
- LossNode.LossFunc1D.PrePropTr: requires a known shape. `UNKNOWN` is defined in `NodeSet.py`, which is not part of this model.
- LossNode.LossFunc1D.PrePropTe: requires a known shape. `UNKNOWN` is defined in `NodeSet.py`, which is not part of this model.
- LossNode.LossFunc1D.PrePropPr: requires a known shape. `UNKNOWN` is defined in `NodeSet.py`, which is not part of this model.
- LossNode.Allocate: states only the shape; `np.empty` leaves the contents unspecified, and the model zero-fills them.
- The initial `None` buffers are modelled as empty arrays, and the initial `ychs = UNKNOWN` as 0.
- The targets `trT`/`teT` are assigned by the graph (`NodeGraph.py`, which is not part of this model); here they are plain fields.
- LossNode.LossFunc1D.PullGrad: predecessors receive a copy of their slice, not a numpy view that aliases `gradY`.
- The predecessors' real `pullGrad` (in `MidSet.py`/`StartSet.py`, not part of this model) is modelled only as a sink that records the slice it is given. A predecessor is modelled only by `ydim`, `ychs`, `nextSets` and `nextInd`.
- The names and identities inherited from `NodeSet` are not modelled.
- The string formatters `shortStr`, `__str__` and `saveStr` are not modelled; they are presentation only.
- The demo script `Xor.py` is not modelled. It builds fixed topologies, plots, times and prints, and depends on modules that are not part of this model.
- LossNode.LossFunc1D.Compile: the `IndexError` raised by `prevSets[0]` when there is no predecessor is modelled as the status `NoPredecessor`, with nothing changed.
