# TBA-Py pull adapters in Dafny

TBA-Py builds lazy sequence algorithms ("PyX algorithms") as iterator
adapters: every adapter is an object whose `next()` pulls from one or more
PyX inputs and either returns the next output element or raises
`StopIteration`, and keeps raising it once it has. This project models the
adapters of `xbase.py`, `xbasic.py` and `xsorted.py`, and the Soundex
example built on top of them, as Dafny classes whose fields are the state
the Python objects keep between pulls.

Every adapter class has the same shape:

- `Valid()` is the invariant of its fields;
- the ghost function `Output()` is everything the adapter will still
  produce, as a function of what its inputs still hold (the functions of
  `BasicSpec`, `SortedSpec` and `Soundex`);
- `Next()` returns `Pull.Some(x)` or `Pull.Exhausted` (Python's
  `StopIteration`) and is proved to satisfy
  `Pulled(old(Output()), r, Output())`: it yields the head of the promised
  output and leaves its tail, or signals exhaustion on an empty output,
  which then stays empty.

The properties of the adapters are then proved once, as lemmas about the
specification functions: what xcat, xfilter, xmap, xmap_trim, xunique,
xhead, xfill and xtail produce; that xmerge is a sorted, stable
permutation of its inputs; what xset_union, xset_intersection,
xset_difference and xset_symmetric_difference keep of every class of
equivalent elements, and that on sorted, unique inputs they produce sorted,
unique outputs with the set meaning their names promise; and the shape and
known values of the Soundex code.

Files (each one module):

- `ordering.dfy` (`Ordering`): three-way comparators, sortedness.
- `basic_spec.dfy` (`BasicSpec`): what the `xbasic.py` adapters produce.
- `base.dfy` (`Base`): the pull protocol, a PyX input over a finite
  sequence (`Source`), `xsingle_buffer` (`SingleBuffer`) and `xresult`.
- `basic.dfy` (`Basic`): the `xbasic.py` adapters.
- `sorted_spec.dfy` (`SortedSpec`): what the `xsorted.py` adapters produce.
- `sorted.dfy` (`Sorted`): the `xsorted.py` adapters.
- `soundex.dfy` (`Soundex`): the table, `xunorthodox_soundex` and
  `xsoundex`.
- `soundex_examples.dfy` (`SoundexExamples`): the codes the
  repository's tests expect, derived from the lemmas of `Soundex`.

Code and documentation disagree in one place: the docstring of xfill
(TBA/algorithms/xbasic.py:326-330, 344-345) says that an input longer than
the bound is passed through whole, but `next()` (xbasic.py:355-362) stops
after `bound` elements whatever the input. The model follows the code
(`BasicSpec.Fill`, `BasicSpec.FillTruncates`); xsoundex depends on neither
reading, since it cuts the result with xhead to the same length.

## Model

| member | source | states |
|---|---|---|
| Base.Source.Next | TBA/algorithms/xbasic.py:7-11 | A PyX input yields its elements in order; once exhausted it stays exhausted and unchanged. |
| Base.NewSources | TBA/algorithms/xbasic.py:55-58 | `map(iter, inputs)`: one fresh, distinct input per sequence, each holding exactly that sequence. |
| Base.PullOne | TBA/algorithms/xbasic.py:65 | Pulling one of several distinct inputs takes that input's head (or signals its exhaustion) and changes no other input. |
| Base.SingleBuffer.constructor | TBA/algorithms/xbase.py:90-101 | After construction the buffer is empty and the stream is the whole input. |
| Base.SingleBuffer.Get | TBA/algorithms/xbase.py:103-119 | get() returns the first element still to come without consuming it; it pulls the input only when the buffer is empty (at most one element), and signals exhaustion exactly when nothing is left. |
| Base.SingleBuffer.Next | TBA/algorithms/xbase.py:121-135 | next() never pulls: it empties the buffer, dropping the buffered element from the stream, and returns the buffer itself. |
| Base.SingleBuffer.HasValue | TBA/algorithms/xbase.py:137-152 | The truth test is true exactly when something is left, and what it buffers is kept. |
| Base.SingleBuffer.Consume | TBA/algorithms/xbase.py:154-170 | consume() takes the first element off the stream and leaves the buffer empty, pulling the input at most once; on exhaustion it changes nothing (next() is not called). |
| Base.BufferWalkthrough | TBA/algorithms/xbase.py:46-87 | The documented session over [1, 2, 3]: get() returns 1, 2, 2, 3 and then signals exhaustion twice; the truth tests give true six times, then false twice. |
| Base.Collect | TBA/algorithms/xbase.py:219-220 | xresult(input) is every element of the input in order, and exhausts it. |
| Base.CollectOnto | TBA/algorithms/xbase.py:227-234 | xresult with a list or tuple start is the start followed by every element of the input. |
| Base.CollectString | TBA/algorithms/xbase.py:221-226 | xresult with a string start is the start followed by all the input's strings concatenated. |
| Base.CatPulled | TBA/algorithms/xbasic.py:60-67 | A pull from the current input of xcat is a pull from the concatenation; its exhaustion leaves the concatenation of the later inputs unchanged. |
| Basic.CatStream.constructor | TBA/algorithms/xbasic.py:55-58 | A fresh, distinct iterator per input, starting at the first input; the stream will produce the concatenation of the inputs. |
| BasicSpec.Concat | TBA/algorithms/xbasic.py:60-67 | xcat's output contains every input whole: it is at least as long as each of them. |
| Basic.CatStream.Next | TBA/algorithms/xbasic.py:60-67 | Yields the head of the concatenation of the inputs from `which` on, skipping exhausted inputs; `which` only grows and every input before it is exhausted. |
| Basic.CatStream.PullCurrent | TBA/algorithms/xbasic.py:64-67 | One pull from the current input either yields the next element of the concatenation or, when that input is exhausted, moves on to the next input without changing what is left to produce. |
| BasicSpec.ConcatAppend | TBA/algorithms/xbasic.py:36-40 | Concatenating two groups of inputs is concatenating the two results. |
| BasicSpec.ConcatLength | TBA/algorithms/xbasic.py:36-40 | xcat's output is exactly as long as all inputs together. |
| BasicSpec.ConcatAt | TBA/algorithms/xbasic.py:36-40 | Element k of input j appears in xcat's output at the total length of the inputs before j, plus k. |
| BasicSpec.CatExampleTwoInputs | TBA/algorithms/xbasic.py:49-50 | xcat of [1, 3, 5] and [2, 4, 6] gives [1, 3, 5, 2, 4, 6]. |
| BasicSpec.CatExampleEmptyMiddle | TBA/algorithms/test/test_xbasic.py:33 | xcat of [2, 5, 8], [] and [1, 4, 7] gives [2, 5, 8, 1, 4, 7]: the empty input contributes nothing. |
| Basic.FilterStream.constructor | TBA/algorithms/xbasic.py:95-97 | The stream will produce exactly the elements of the input that pass the predicate. |
| Basic.FilterStream.Next | TBA/algorithms/xbasic.py:99-106 | Pulls until an element passes the predicate and yields it; exhaustion of the input ends the output. |
| BasicSpec.Filter | TBA/algorithms/xbasic.py:74-80 | The output is no longer than the input and every element of it passes the predicate. |
| BasicSpec.FilterAppend | TBA/algorithms/xbasic.py:99-106 | Filtering distributes over concatenation, so order is kept. |
| BasicSpec.FilterCount | TBA/algorithms/xbasic.py:99-106 | Every element that passes occurs in the output as often as in the input; an element that fails never occurs. |
| BasicSpec.FilterAllPass | TBA/algorithms/xbasic.py:99-106 | An input whose elements all pass comes out unchanged. |
| BasicSpec.FilterNonePass | TBA/algorithms/xbasic.py:99-106 | An input none of whose elements passes comes out empty. |
| BasicSpec.FilterBetween | TBA/algorithms/xbasic.py:99-106 | A run of passing elements between failing ones is exactly what is kept. |
| BasicSpec.FilterExample | TBA/algorithms/test/test_xbasic.py:42-46 | Filtering [2, 3, 4, 5, 6, 5, 4, 3, 2] by "greater than 3" gives [4, 5, 6, 5, 4]. |
| Basic.MapStream.constructor | TBA/algorithms/xbasic.py:151-154 | A fresh iterator per input with the given function and replacement; the stream will produce the columns of the inputs mapped by the function. |
| Basic.MapStream.Next | TBA/algorithms/xbasic.py:156-167 | Yields `f` of one column of the inputs; ends only when every input was exhausted. |
| Basic.MapStream.PullColumn | TBA/algorithms/xbasic.py:157-165 | Pulls every input once, in order: returns what each produced with `replace` for exhausted ones, every input loses its head, and `done` holds exactly when all inputs were exhausted. |
| BasicSpec.ZipLongest | TBA/algorithms/xbasic.py:116-125 | xmap's output is as long as the longest input. |
| BasicSpec.MaxLengthTails | TBA/algorithms/xbasic.py:156-167 | One pull of every input shortens the longest by exactly one, so xmap ends. |
| BasicSpec.ZipLongestAt | TBA/algorithms/xbasic.py:156-167 | Element i of xmap's output is `f` of the i-th elements of the inputs, `replace` for each input shorter than i + 1. |
| BasicSpec.MapExampleLongest | TBA/algorithms/test/test_xbasic.py:67 | Summing [3, 1, 2] and [3] under xmap with replacement 0 gives [6, 1, 2]. |
| BasicSpec.MapExampleShortest | TBA/algorithms/xbasic.py:202-203 | xmap_trim multiplying [2, 3] and [5, 7, 11] stops with the shorter input: [10, 21]. |
| Basic.MapTrimStream.constructor | TBA/algorithms/xbasic.py:206-209 | A fresh iterator per input with the given function; the stream will produce the function of the inputs' rows, as many as the shortest input has. |
| Basic.MapTrimStream.PullHeads | TBA/algorithms/xbasic.py:211-212 | Pulls the inputs in order; when input `k` is exhausted it stops there: every input before `k` has lost its head, `k` and every input after it are untouched. Otherwise every input loses its head and the heads are returned in input order. |
| Basic.MapTrimStream.Next | TBA/algorithms/xbasic.py:211-212 | Yields `f` of the heads of all inputs; ends as soon as any input is exhausted. |
| BasicSpec.ZipShortest | TBA/algorithms/xbasic.py:181-190 | xmap_trim's output is as long as the shortest input. |
| BasicSpec.MinLengthTails | TBA/algorithms/xbasic.py:211-212 | One pull of every input shortens the shortest by exactly one. |
| BasicSpec.ZipShortestExhausted | TBA/algorithms/xbasic.py:211-212 | An exhausted input ends xmap_trim's output at once. |
| BasicSpec.ZipShortestStep | TBA/algorithms/xbasic.py:211-212 | With every input non-empty, the output is `f` of the heads followed by the output over the tails. |
| BasicSpec.ZipShortestAt | TBA/algorithms/xbasic.py:211-212 | Element i of xmap_trim's output is `f` of the i-th elements of all inputs. |
| Basic.UniqueStream.constructor | TBA/algorithms/xbasic.py:256-258 | The input behind a fresh, empty xsingle_buffer and the comparator; the stream will produce the first element of every run of ties. |
| Basic.UniqueStream.Next | TBA/algorithms/xbasic.py:260-267 | Consumes one element, then drops buffered elements that tie with it, leaving the first one that does not in the buffer. |
| BasicSpec.SkipRun | TBA/algorithms/xbasic.py:262-265 | What is left after skipping is a suffix of the input whose first element does not tie with the element yielded. |
| BasicSpec.Unique | TBA/algorithms/xbasic.py:222-232 | The output is no longer than the input and starts with the input's first element (the first of the run is kept). |
| BasicSpec.UniqueDrawn | TBA/algorithms/xbasic.py:222-232 | Every element of xunique's output is taken from the input. |
| BasicSpec.UniqueNoTiedNeighbours | TBA/algorithms/xbasic.py:225-229 | No two neighbours in xunique's output tie. |
| BasicSpec.NoTiedNeighboursAt | TBA/algorithms/xbasic.py:225-229 | A sequence without tied neighbours has no index whose element ties with the next one. |
| BasicSpec.UniquePassThrough | TBA/algorithms/xbasic.py:225-229 | An input without tying neighbours comes out unchanged. |
| BasicSpec.UniqueIsRunHeads | TBA/algorithms/xbasic.py:225-232 | For a comparator that orders its type, xunique's output is exactly the first element of every maximal run of tying neighbours. |
| BasicSpec.SkipRunChanges | TBA/algorithms/xbasic.py:260-267 | Skipping a run and then removing runs equals keeping every element that does not tie with its predecessor. |
| BasicSpec.ChangesOfTie | TBA/algorithms/xbasic.py:260-267 | Which elements survive depends on the predecessor only up to a tie. |
| BasicSpec.UniqueExampleRun | TBA/algorithms/test/test_xbasic.py:88 | xunique([3, 3, 5]) is [3, 5]. |
| BasicSpec.UniqueExampleApart | TBA/algorithms/test/test_xbasic.py:87 | xunique([3, 5, 3]) is [3, 5, 3]: equal values that are not neighbours both stay. |
| Basic.HeadStream.constructor | TBA/algorithms/xbasic.py:303-305 | The stream will produce the first `bound` elements of the input. |
| BasicSpec.Take | TBA/algorithms/xbasic.py:307-311 | xhead yields min(max(bound, 0), length of the input) elements. |
| Basic.HeadStream.Next | TBA/algorithms/xbasic.py:307-311 | While the bound is positive it drops by one and the next input element is passed; otherwise the output is over. |
| BasicSpec.TakePrefix | TBA/algorithms/xbasic.py:277-285 | xhead's output is the first `bound` elements of the input, or the whole input if it is shorter; none for a bound of 0 or less. |
| Basic.FillStream.constructor | TBA/algorithms/xbasic.py:350-353 | The stream will produce exactly `bound` elements: the input's, then the fill value. |
| Basic.FillStream.Next | TBA/algorithms/xbasic.py:355-362 | While the bound is positive it drops by one and yields the next input element or, once the input is exhausted, the fill value. |
| BasicSpec.Fill | TBA/algorithms/xbasic.py:355-362 | xfill's output has exactly `bound` elements (none for a bound of 0 or less): the input's elements, then fill values. |
| BasicSpec.FillTruncates | TBA/algorithms/xbasic.py:344-347 | xfill([1, 1, 2, 3], 2, 0) is [1, 1] (the docstring says [1, 1, 2, 3]); with bound 9 five zeros are appended. |
| BasicSpec.FillKeepsInput | TBA/algorithms/xbasic.py:326-330 | The whole input survives xfill exactly when the bound is at least its length. |
| Basic.TailStream.constructor | TBA/algorithms/xbasic.py:402-404 | The stream will produce the input after its first `bound` elements. |
| BasicSpec.Drop | TBA/algorithms/xbasic.py:406-410 | xtail yields the input's length less min(max(bound, 0), length) elements. |
| Basic.TailStream.Next | TBA/algorithms/xbasic.py:406-410 | Skips while the bound is positive, decrementing it, then passes elements through; an element is only yielded once the bound is used up. |
| BasicSpec.DropSuffix | TBA/algorithms/xbasic.py:376-384 | xtail's output is the input after its first `bound` elements, empty if the input is shorter, the whole input for a bound of 0 or less. |
| BasicSpec.TakeDrop | TBA/algorithms/xbasic.py:277-284 | xhead and xtail with the same bound split the input between them. |
| BasicSpec.HeadTailExamples | TBA/algorithms/xbasic.py:296-300 | xhead of [1, 1, 2, 3] with 2 and 9 gives [1, 1] and the whole input; xtail gives [2, 3] and []. |
| Sorted.MergeStream.constructor | TBA/algorithms/xsorted.py:69-71 | Each input behind a fresh, empty xsingle_buffer; the stream will produce the merge of the two inputs. |
| SortedSpec.Merge | TBA/algorithms/xsorted.py:73-88 | xmerge yields exactly as many elements as both inputs hold together. |
| Sorted.MergeStream.Next | TBA/algorithms/xsorted.py:73-88 | An exhausted first input hands over to the second and vice versa; otherwise the second input's head is yielded only when the first's compares above it, so on a tie the first input's goes first. |
| SortedSpec.MergePermutes | TBA/algorithms/xsorted.py:34-37 | xmerge's output holds exactly the elements of both inputs. |
| SortedSpec.MergeSorted | TBA/algorithms/xsorted.py:36 | Sorted inputs give a sorted output. |
| SortedSpec.MergeClass | TBA/algorithms/xsorted.py:39-42 | Stability: the elements equivalent to any value are those of the first input, in order, followed by those of the second. |
| SortedSpec.MergeExample | TBA/algorithms/xsorted.py:54-55 | xmerge([1, 4], [2, 3, 4]) is [1, 2, 3, 4, 4]. |
| SortedSpec.StabilityExamples | TBA/algorithms/xsorted.py:56-66 | With two equivalent but distinct elements, xmerge yields the first input's then the second's, and xset_union and xset_intersection yield the first input's. |
| Sorted.UnionStream.constructor | TBA/algorithms/xsorted.py:141-143 | Each input behind a fresh, empty xsingle_buffer; the stream will produce the union of the two inputs. |
| SortedSpec.Union | TBA/algorithms/xsorted.py:145-165 | xset_union yields at least as many elements as the longer input and at most as many as both together. |
| Sorted.UnionStream.Next | TBA/algorithms/xsorted.py:145-165 | Like xmerge, except that tying heads are both consumed and only the first input's is yielded. |
| SortedSpec.UnionDrawn | TBA/algorithms/xsorted.py:107-114 | Every element of the union comes from the inputs. |
| SortedSpec.UnionSorted | TBA/algorithms/xsorted.py:109 | Sorted inputs give a sorted output. |
| SortedSpec.UnionClass | TBA/algorithms/xsorted.py:112-114 | Of every class of equivalent elements the union keeps the first input's, followed by the second input's beyond as many as the first has. |
| SortedSpec.UnionOfSets | TBA/algorithms/xsorted.py:107-114 | On sorted, unique inputs the output is sorted and unique, and holds a value exactly when either input does, the first input's element when both do. |
| SortedSpec.UnionExample | TBA/algorithms/xsorted.py:126-127 | xset_union([1, 4], [2, 3, 4]) is [1, 2, 3, 4]. |
| Sorted.IntersectionStream.constructor | TBA/algorithms/xsorted.py:217-219 | Each input behind a fresh, empty xsingle_buffer; the stream will produce the intersection of the two inputs. |
| SortedSpec.Intersection | TBA/algorithms/xsorted.py:221-234 | xset_intersection yields no more elements than the shorter input. |
| Sorted.IntersectionStream.Next | TBA/algorithms/xsorted.py:221-234 | Advances the input with the smaller head until the heads tie, then consumes both and yields the first's; either input running out ends the output. |
| SortedSpec.IntersectionDrawn | TBA/algorithms/xsorted.py:189-190 | Every element of the intersection comes from the first input. |
| SortedSpec.IntersectionSorted | TBA/algorithms/xsorted.py:186 | Sorted inputs give a sorted output. |
| SortedSpec.IntersectionClass | TBA/algorithms/xsorted.py:184-190 | Of every class of equivalent elements the intersection keeps the first input's, as many as both inputs have. |
| SortedSpec.IntersectionOfSets | TBA/algorithms/xsorted.py:184-190 | On sorted, unique inputs the output is sorted and unique and holds a value exactly when both inputs do, as the first input's element. |
| SortedSpec.IntersectionExample | TBA/algorithms/xsorted.py:202-203 | xset_intersection([1, 4], [2, 3, 4]) is [4]. |
| Sorted.DifferenceStream.constructor | TBA/algorithms/xsorted.py:274-276 | Fresh buffers over both inputs; the stream will produce the difference of the two inputs. |
| SortedSpec.Difference | TBA/algorithms/xsorted.py:278-292 | xset_difference yields at most the first input's length and loses at most one element per element of the second input. |
| Sorted.DifferenceStream.Next | TBA/algorithms/xsorted.py:278-292 | Pulls an element of the first input and skips the second input past it; a tie drops both and tests the next element; an exhausted second input lets the element through. |
| Sorted.DifferenceStream.Step | TBA/algorithms/xsorted.py:281-292 | One round of the loop with `x` pending: `x` is produced when the second input is exhausted or its head is above `x`; a head below `x` is skipped; a tie drops both and makes the first input's next element pending (its exhaustion ends the output); what is left to produce never changes across a round that goes on. |
| SortedSpec.DifferenceDrawn | TBA/algorithms/xsorted.py:253-256 | Every element of the difference comes from the first input. |
| SortedSpec.DifferenceSorted | TBA/algorithms/xsorted.py:255 | Sorted inputs give a sorted output. |
| SortedSpec.DifferenceClass | TBA/algorithms/xsorted.py:253-256 | Of every class of equivalent elements the difference keeps the first input's beyond as many as the second input has. |
| SortedSpec.DifferenceOfSets | TBA/algorithms/xsorted.py:253-256 | On sorted, unique inputs the output is sorted and unique and holds a value exactly when the first input does and the second does not. |
| SortedSpec.DifferenceExamples | TBA/algorithms/xsorted.py:268-271 | xset_difference([1, 4], [2, 3, 4]) is [1] and xset_difference([2, 3, 4], [1, 4]) is [2, 3]. |
| Sorted.SymmetricDifferenceStream.constructor | TBA/algorithms/xsorted.py:330-332 | Each input behind a fresh, empty xsingle_buffer; the stream will produce the symmetric difference of the two inputs. |
| SortedSpec.SymmetricDifference | TBA/algorithms/xsorted.py:334-354 | xset_symmetric_difference yields at most both inputs' lengths together and at least their difference. |
| Sorted.SymmetricDifferenceStream.Next | TBA/algorithms/xsorted.py:334-354 | Yields the smaller head; tying heads are both dropped and the next pair is compared. |
| SortedSpec.SymmetricDifferenceDrawn | TBA/algorithms/xsorted.py:311-314 | Every element of the symmetric difference comes from the inputs. |
| SortedSpec.SymmetricDifferenceSorted | TBA/algorithms/xsorted.py:313 | Sorted inputs give a sorted output. |
| SortedSpec.SymmetricDifferenceClass | TBA/algorithms/xsorted.py:311-314 | Of every class of equivalent elements the symmetric difference keeps each input's elements beyond as many as the smaller class has. |
| SortedSpec.SymmetricDifferenceOfSets | TBA/algorithms/xsorted.py:311-314 | On sorted, unique inputs the output is sorted and unique and holds a value exactly when one input has it and the other does not. |
| SortedSpec.SymmetricDifferenceExample | TBA/algorithms/xsorted.py:326-327 | xset_symmetric_difference([1, 4], [2, 3, 4]) is [1, 2, 3]. |
| Soundex.TableShape | TBA/algorithms/examples/xsoundex.py:26-42 | Every digit in the table is one of 1 to 6, only letters are keys (any other character is a separator), and the table does not depend on case: an upper-case letter and its lower-case form have the same entry. |
| Soundex.Upper | TBA/algorithms/examples/xsoundex.py:131 | Upper-casing yields an upper-case letter exactly for letters and leaves every other character alone. |
| Soundex.ReduceAtMostOnePerChar | TBA/algorithms/examples/xsoundex.py:68-77 | xunorthodox_soundex yields at most one digit per input character. |
| Soundex.ReduceAppend | TBA/algorithms/examples/xsoundex.py:64-77 | Reducing a concatenation reduces the second part from the last code held after the first; the last code is the only state the reducer carries. |
| Soundex.ReduceSkip | TBA/algorithms/examples/xsoundex.py:19-24 | For any input, a skipped character (H, W) anywhere emits nothing and leaves the last code unchanged: removing it does not change the result. |
| Soundex.ReduceEmits | TBA/algorithms/examples/xsoundex.py:75-77 | For any input, a character with a code digit emits that digit exactly when it differs from the last code held, and the digit becomes the last code for the rest either way. |
| Soundex.ReduceDigits | TBA/algorithms/examples/xsoundex.py:75-77 | xunorthodox_soundex produces only the digits 1 to 6. |
| Soundex.ReduceSplitsAtSeparator | TBA/algorithms/examples/xsoundex.py:70-73 | A separator resets the reducer: the input after it is reduced as by a fresh reducer, independently of what came before. |
| Soundex.ReduceNoRepeat | TBA/algorithms/examples/xsoundex.py:75-77 | Without a separator in the input no digit repeats its predecessor, and the first differs from the last code produced. |
| Soundex.ReduceFirstRepeat | TBA/algorithms/examples/xsoundex.py:70-77 | A first digit equal to the last code can only come after a separator that appears before any digit was produced. |
| Soundex.ReduceRepeatNeedsSeparator | TBA/algorithms/examples/xsoundex.py:70-77 | For any input, two equal neighbouring digits in the output have a separator between their sources: it stands where exactly the first of the two has been produced. |
| Soundex.SkipAndSeparator | TBA/algorithms/examples/xsoundex.py:21-25 | BB gives 1, BHB gives 1 (H is skipped and does not separate), BAB gives 11 (A separates). |
| Soundex.ReducerStream.constructor | TBA/algorithms/examples/xsoundex.py:64-66 | A fresh iterator over the input and the last code set to 'X'; the stream will produce the reduction of the input. |
| Soundex.ReducerStream.Next | TBA/algorithms/examples/xsoundex.py:68-77 | Pulls characters until one has a digit different from the last code produced, yields it and remembers it; a separator resets the last code. |
| Soundex.FirstDigitDropped | TBA/algorithms/examples/xsoundex.py:111-128 | Dropping the reducer's first digit when the first character has one leaves the rest of the input reduced with that digit as the last code. |
| Soundex.Code | TBA/algorithms/examples/xsoundex.py:105-134 | An empty input gives no code, any other exactly five characters. |
| Soundex.CodeClosedForm | TBA/algorithms/examples/xsoundex.py:105-134 | The code is the upper-cased first character, a dash, and the reduction of the rest of the input padded with '0' or cut to three digits. |
| Soundex.CodeShape | TBA/algorithms/examples/xsoundex.py:90-92 | An empty input gives no code; any other gives exactly five characters: the upper-cased first character, a dash and three characters from 0 to 6. |
| Soundex.CodeAfterSeparator | TBA/algorithms/examples/xsoundex.py:110-128 | A name whose first character is an upper-case separator keeps that character, and its code continues with the three digits of the rest of the name reduced by a fresh reducer, none dropped. |
| SoundexExamples.KnownCodeSmith | TBA/algorithms/examples/test/test_xsoundex.py:52 | Smith gives S-530. |
| SoundexExamples.KnownCodeLee | TBA/algorithms/examples/test/test_xsoundex.py:37 | Lee gives L-000. |
| SoundexExamples.KnownCodeVanDeusen | TBA/algorithms/examples/test/test_xsoundex.py:57 | VanDeusen gives V-532. |
| SoundexExamples.KnownCodeVanSpaceDeusen | TBA/algorithms/examples/test/test_xsoundex.py:58 | Van Deusen gives V-532. |
| SoundexExamples.KnownCodeOBrien | TBA/algorithms/examples/test/test_xsoundex.py:42 | OBrien gives O-165. |
| SoundexExamples.KnownCodeOApostropheBrien | TBA/algorithms/examples/test/test_xsoundex.py:43 | O'Brien gives O-165. |
| Soundex.SoundexStream.constructor | TBA/algorithms/examples/xsoundex.py:101-103 | A fresh iterator over the input and no pipeline yet; the stream will produce the code of the input. |
| Soundex.SoundexStream.Next | TBA/algorithms/examples/xsoundex.py:105-139 | The first pull takes the first character (an empty input ends the output at once) and builds the pipeline; every pull yields the next character of the code. |

## Left out

- The function, predicate and comparator passed to xfilter, xmap, xmap_trim, xunique and the xsorted adapters are total Dafny functions: a call that raises in Python, such as the TypeError of xmap with `operator.mul` and the default replacement None (TBA/algorithms/xbasic.py:144-146), cannot happen in the model, and neither can a comparator that raises.
- Laziness of composition: adapters here read `Source` inputs over finite
  sequences, not other adapters (the language has no common interface
  type for them here), so a pipeline is composed on values.
- Soundex.SoundexStream.Next: builds the code from the rest of the input
  in one go on the first pull, where the Python pipeline reads the input
  lazily; the characters yielded are the same.
- Infinite inputs and inputs that raise anything but `StopIteration`.
- Basic.MapTrimStream.constructor: requires at least one input; with none
  the Python adapter would call `f()` forever.
- The default `None` predicate of xfilter (Python truthiness): the
  predicate is always a function.
- Object identity (`is`) in the stability examples: identity is stood in
  for by pairs compared on their first component only.
- The `set_*` reconfiguration methods: their values are constructor
  parameters; `xunique.set_input` would raise a NameError in any case.
- `xbase.__iter__` and the `__getitem__` fallback for old interpreters, and
  `xcompatibility.py`: iteration-protocol plumbing. `xcompatibility.py` and
  `setup.py` are not part of this model.
- Bounds of xhead, xfill and xtail are integers; the Python code accepts
  any numeric type that compares with 0 and supports `-= 1`.
- Soundex.Upper: upper-cases ASCII letters only; Python's `string.upper`
  may also change other characters depending on the locale.
- Base.CollectOnto: one method for list and tuple starts; the result's
  Python type (list or tuple) is not modelled.
