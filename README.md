# Subsurface dive-profile pipeline, modelled in Dafny

This project models how Subsurface builds a dive profile in `profile.c`. It stays with the sequential integer work of that pipeline:

- resampling a dive computer's samples into plot entries at most 10 s apart (`populate_plot_entries`);
- tracking which cylinder is breathed from gas-change events (`get_next_event`, `get_cylinder_index`, `set_cylinder_index`, `check_gas_change_events`);
- the pressure-segment machinery:
  - the `pr_track` list;
  - the pressure-time integral;
  - sharing a pressure drop across a chain of segments;
  - interpolating tank pressures entry by entry;
  - seeding manual start and end pressures;
  - building the segment tracks;
- the analysis passes:
  - velocity classes;
  - five-point depth smoothing;
  - the rolling min/max/average windows;
- the limit scans and the time/depth scales;
- the event-name table;
- dive-computer selection;
- the plot-details lookup and the integer half of `compare_samples`.

It also models the integer decisions of the profile view in `qt-ui/profilegraphics.cpp`:

- the SAC colour bucket;
- the time-marker spacing;
- removing, hiding and unhiding events;
- which entry an event marker goes to;
- gas labels;
- which entries get the deep and shallow depth labels.

The layout follows the source:

- **Data.** A plot entry is a datatype with one `CylState` per cylinder (`PlotData`).
- **Passes.** Each pass that writes `pi->entry[]` in place is a method over an `array<PlotEntry>`. Each such method is proved equal to a specification function on `entry[..nr]`, and the properties are then lemmas about that function.
- **Pure code.** Functions and lemmas.
- **Globals.** The event-name table is the class `EventNames.EventTable`; `dc_number` is the class `DcSelect.DcSelector`.
- **Event list.** The view's event list is the class `Graphics.DiveComputerEvents`.

| External | How it is modelled |
|---|---|
| `depth_to_mbar` | Function-valued parameter. |
| `interpolate` | Function-valued parameter. |
| `is_air` | Boolean parameter. |
| `cylinder_nodata`, `get_o2`, `get_he` | Precomputed fields of `CylinderInfo`. |
| `MAX_CYLINDERS` | Constant 8. |
| `SURFACE_THRESHOLD` | Constant 750. |
| `SAC_COLORS` | Parameter. |
| `velocity_t` | `PlotData.Velocity`. Its enum order is taken to be STABLE < SLOW < MODERATE < FAST < CRAZY, and `PlotData.Rank` gives each class its enum value; the header that declares it is not part of this model. |
| `cylinder_segment_use_t` | `PlotData.Usage`. The value 0 that `calloc` leaves in a fresh entry is taken to be `NotInUse` (NOT_IN_USE). |

Where C's arithmetic differs from Dafny's, the model spells it out:

- C's truncating division is `Common.TruncDiv`.
- The `unsigned` comparisons are made on `Common.Unsigned`, which is reduction modulo 2^32.
- The int arithmetic of the gas-match score wraps around 32 bits (`Common.Wrap32`), as two's-complement hardware does; C leaves signed overflow undefined.

## Model

| member | source | states |
|---|---|---|
| Scale.DivUp | profile.c:58-59 | The least multiple count of y that reaches x. |
| Scale.RoundUp | profile.c:58-59 | The least multiple of y that is at least x. |
| Scale.MaxTime | profile.c:69-87 | Zoomed: a multiple of 60 in `[maxtime + min(maxtime/4,150), +60)`. Otherwise: at least 30 min, a multiple of 5 min, at least maxtime + 150 s, and the least such unless it is the 30 min floor. |
| Scale.MaxTimeExamples | profile.c:69-87 | 1500 s gives 1800 s, 5400 s gives 5700 s, and 400 s zoomed gives 540 s. |
| Scale.MaxDepth | profile.c:92-106 | A multiple of 10 m at least 3 m below the deepest point, within one step of it. Unzoomed it is never shallower than 30 m. |
| Analysis.VelocityOf | profile.c:288-314 | Each velocity class holds exactly on its interval of speeds: stable on [-25,25), slow, moderate and fast up to the ascent cut-offs -76/-152/-304 and descent cut-offs 152/304/507, crazy beyond. |
| Analysis.VelocityMonotone | profile.c:288-314 | Away from stable, a faster ascent or descent never gets a lower class. |
| Analysis.VelocityExamples | profile.c:288-314 | -200 is fast, +200 moderate, -26 slow, -25 and 24 stable, 507 crazy. |
| Analysis.Lookback | profile.c:337-339 | The entry the velocity refinement looks back to is never later than where the look-back starts. |
| Analysis.LookbackStops | profile.c:337-339 | The look-back stops at the first entry or at the latest entry at least 15 s earlier, and every entry skipped is less than 15 s earlier. |
| Analysis.SortedHasNoZeroLookback | profile.c:336-342 | On a profile sorted by time, no look-back reaches an entry at the same time, so the speed division is defined. |
| Analysis.DensifiedHasNoZeroLookback | profile.c:336-342 | The series `populate_plot_entries` builds has no zero look-back either, although its trailing entries can go back in time after a cut-off. |
| Analysis.StepSpeed | profile.c:332-345 | The speed of the step into an entry, depth difference over time difference truncated toward zero, or 0 for an empty step. Its use is stated by `SmoothedEntry` and `ZeroStepStable`. |
| Analysis.StepVelocity | profile.c:332-345 | The velocity class of an entry, refined over the look-back for a short gentle step. Stated by `SmoothedEntry`, `ZeroStepStable` and `LongStepKeepsOwnClass`. |
| Analysis.Smoothed5 | profile.c:326-329 | The five-point weighted depth divided by 9 with rounding `(sum + 4) / 9`. Stated by `SmoothedEntry` and `SmoothFlat`. |
| Analysis.SmoothedEntry | profile.c:322-346 | What the pass does to one entry. Time, depth, windows and cylinders are kept. The first two entries are untouched. From the third on, the speed is that of the step from the previous entry, and the velocity is that step's class, refined over the look-back. The five-point weighted depth is set only where two neighbours exist on each side. |
| Analysis.ZeroStepStable | profile.c:332-346 | An entry at the same time as its predecessor is stable with speed 0. |
| Analysis.LongStepKeepsOwnClass | profile.c:332-336 | A step of 15 s or more, or one already fast, keeps the class of its own speed. |
| Analysis.SmoothFlat | profile.c:326-329 | Smoothing a constant depth returns that depth. |
| Analysis.RunStart | profile.c:255-259 | Going back never passes the entry itself. |
| Analysis.RunStartStops | profile.c:255-259 | Going back stops at the first entry or just after one outside the window, and every entry passed lies in the window. |
| Analysis.RunEnd | profile.c:262-275 | Going forward stays within the profile. |
| Analysis.RunEndStops | profile.c:262-275 | Going forward stops at the end or at the first entry past the window, and every entry passed lies in it. |
| Analysis.ArgMin | profile.c:262-275 | The running minimum is the first entry or one of the scanned entries. |
| Analysis.ArgMinIsFirstMinimum | profile.c:262-275 | The running minimum is the first strict argmin of depth over the scanned entries. |
| Analysis.ArgMax | profile.c:262-275 | The running maximum is the first entry or one of the scanned entries. |
| Analysis.ArgMaxIsFirstMaximum | profile.c:262-275 | The running maximum is the first strict argmax of depth over the scanned entries. |
| Analysis.RunLo | profile.c:255-259 | The window's run starts at or before the entry. |
| Analysis.RunHi | profile.c:262-275 | The window's run ends after the entry, within the profile. |
| Analysis.RunIsWindow | profile.c:246-279 | On a sorted profile the run is exactly the contiguous entries within `sec ± 90*(index+1)` around the entry, and it contains the entry. |
| Analysis.WindowExtremes | profile.c:246-279 | The window's min and max are the first strict argmin and argmax of depth over its run. |
| Analysis.WindowAverage | profile.c:278 | With non-negative depths, the rounded mean `(sum + n/2)/n` lies between the run's minimum and maximum depth. |
| Analysis.Analyzed | profile.c:316-356 | The analysed profile has as many entries as before. |
| Analysis.AnalyzePlotInfo | profile.c:316-356 | The in-place passes leave exactly `Analyzed` of the old entries; entries past nr are untouched. Its requirement that no look-back divides by zero holds for sorted entries and for the densified series (`DensifiedHasNoZeroLookback`). |
| Analysis.SmoothAll | profile.c:322-346 | After the first pass every entry is its `SmoothedEntry`, computed from the entries before the pass. |
| Analysis.MinMaxAll | profile.c:350-353 | After the second pass every entry carries its three windows. |
| Analysis.SmoothOne | profile.c:322-346 | One entry is replaced by its smoothed form and nothing else changes. |
| Analysis.EntryVelocity | profile.c:332-346 | The speed and velocity computed for one entry are `StepSpeed` and `StepVelocity`. |
| Analysis.LookbackIndex | profile.c:337-339 | The pointer loop stops at the `Lookback` index. |
| Analysis.MinMaxEntry | profile.c:350-353 | One entry gets its three windows and nothing else changes. |
| Analysis.MinMaxMinute | profile.c:246-279 | The window computed is `MinMaxWindow` for that entry and index. |
| Analysis.GoBack | profile.c:255-259 | The backward pointer loop stops at `RunStart`. |
| Analysis.GoForward | profile.c:262-279 | The forward loop's min, max and average are those of the run up to `RunEnd`. |
| Segments.PrTrackAlloc | profile.c:373-382 | A new segment starts and ends at the given time, with the given start pressure and usage, zero end pressure and zero pressure-time. |
| Segments.ListLast | profile.c:385-394 | The last segment of a nonempty list, none for the empty list. |
| Segments.ListAdd | profile.c:396-403 | Appending keeps the old list as a prefix. |
| Segments.ListAddLast | profile.c:385-403 | After an append the last element is the new one and the others are unchanged. |
| Segments.IntegrationDepth | profile.c:541-565 | The integration depth per usage. Open circuit uses the mean depth and gives nothing at or above the surface threshold. CCR O2 uses 50 mm. CCR diluent integrates only descents, like open circuit. Every other case uses the surface. |
| Segments.PressureTime | profile.c:541-568 | The pressure-time integral is 0 above the surface threshold, otherwise `depth_to_mbar` of the integration depth times the duration. |
| Segments.PressureTimeZeroDuration | profile.c:541-568 | A zero-length step contributes no pressure-time. |
| Segments.PressureTimeNonneg | profile.c:541-568 | A forward step with non-negative pressures gives non-negative pressure-time. |
| Segments.ShallowDiluentCountsSurface | profile.c:555-564 | A CCR diluent step that does not descend, and any unused slot, integrates at surface pressure. |
| Segments.ChainEnd | profile.c:471-480 | A chain ends at the first segment with a nonzero end pressure, or at the last segment. |
| Segments.ChainEndPressure | profile.c:471-480 | The chain's end pressure is that nonzero end, or the start when every end is 0. |
| Segments.ChainStartPressure | profile.c:482-483 | A zero start pressure falls back to the chain's end pressure. |
| Segments.Share | profile.c:498-500 | With a zero pressure-time sum the pressure stays at the start. |
| Segments.FillChain | profile.c:493-506 | Filling one chain keeps the length. |
| Segments.Filled | profile.c:466-510 | Filling all chains keeps the length. |
| Segments.FillMissingSegmentPressures | profile.c:464-511 | The array is rewritten to exactly `Filled(old, 0)`. |
| Segments.FilledStep | profile.c:508-509 | After one chain, filling continues after the chain's last segment. |
| Segments.FillOneChain | profile.c:467-506 | One chain's walk returns its last segment and leaves `FillChain`. |
| Segments.DistributeChain | profile.c:493-506 | The distribution loop completes `FillChain` from the patched first and last segments. |
| Segments.DistributeStep | profile.c:496-506 | One distribution step either finishes the chain or writes one more end and the next start. |
| Segments.ChainFirstStart | profile.c:493 | The chain's first start becomes the chain's start pressure. |
| Segments.ChainContinuous | profile.c:505 | Each later segment of a chain starts where its predecessor ends. |
| Segments.ChainLastEnd | profile.c:494-501 | With a nonzero pressure-time sum, the chain's last end is the chain's end pressure. |
| Segments.ChainZeroSum | profile.c:499-501 | With a zero pressure-time sum, every start and end of the chain is the start pressure, even where a known end was recorded. |
| Segments.ChainKeepsTimes | profile.c:493-506 | Filling changes only pressures: times, pressure-time and usage stay. |
| Segments.PtSumMonotone | profile.c:472-497 | With non-negative pressure-times in the summed range, the running sum never decreases. |
| Segments.PtSum | profile.c:470-497 | The sum of the pressure-times of a run of segments. Stated by `PtSumMonotone`, `ChainNonIncreasing` and `ChainZeroSum`. |
| Segments.ShareMonotone | profile.c:500 | A larger running sum gives a pressure no higher, between end and start. |
| Segments.ChainNonIncreasing | profile.c:493-506 | With start >= end and non-negative pressure-times along the chain, the ends of a chain never rise and stay between end and start. |
| Segments.FilledKeepsPrefix | profile.c:466-510 | Segments before the point reached are not changed again. |
| Segments.FilledChain | profile.c:466-510 | Every segment of a chain ends up as that chain's fill gives it. |
| TankPressure.SetSlot | profile.c:660-678 | Writing one cylinder slot changes only that slot of that entry. |
| TankPressure.GetPrInterpolateData | profile.c:570-619 | The loop's result is `InterpolateData` of the entries. |
| TankPressure.InterpFromBounded | profile.c:570-619 | With non-negative pressure-times the accumulated pressure-time is between 0 and the segment's total. |
| TankPressure.InterpolateDataBounded | profile.c:570-619 | The same bound for the whole scan. |
| TankPressure.InterpolateData | profile.c:570-619 | The interpolation data of one entry. Stated by `GetPrInterpolateData` and `InterpolateDataBounded`. |
| TankPressure.InterpolatedPressure | profile.c:676 | The rounded pressure on the line from start to end. Stated by `InterpolatedBetween`, `RisingLine` and `FallingLine`. |
| TankPressure.InterpolatedBetween | profile.c:671-678 | The rounded interpolated pressure lies between the segment's start and end. It is the start at zero accumulated pressure-time and the end at the full amount. |
| TankPressure.RisingLine | profile.c:676 | Rounding with +0.5 on a rising line stays between start and end and hits both endpoints. |
| TankPressure.FallingLine | profile.c:676 | Rounding with +0.5 on a falling line stays between end and start and hits both endpoints. |
| TankPressure.SegmentFrom | profile.c:656-658 | The segment found is the first whose end time reaches the entry's time, or none. |
| TankPressure.TankStep | profile.c:645-679 | One cell keeps the invariant of the pass and the entry count. |
| TankPressure.TankFrom | profile.c:640-680 | The rest of the pass keeps the invariant of the pass and the entry count. |
| TankPressure.FilledTracks | profile.c:631-636 | Every cylinder's track is first filled with `Filled`. |
| TankPressure.InitialCur | profile.c:631-636 | Each cylinder's running pressure starts at its first segment's start, or at the given value for an empty track. |
| TankPressure.FillTank | profile.c:621-681 | The filled profile keeps its length and well-formedness. |
| TankPressure.FillTrack | profile.c:631-636 | One track is filled to `Filled(track, 0)`. |
| TankPressure.FillMissingTankPressures | profile.c:621-681 | The entries become exactly `FillTank` of the old entries; entries past nr are untouched. |
| TankPressure.FillRow | profile.c:640-680 | One row agrees with running `TankFrom` one entry further. |
| TankPressure.FillCell | profile.c:645-679 | One cell agrees with `TankStep`. |
| TankPressure.FindSegment | profile.c:656-658 | The segment search returns `SegmentFrom`. |
| TankPressure.SetSlotKeeps | profile.c:671-678 | Writing a slot keeps every other part of the profile unchanged. |
| TankPressure.TankStepKeeps | profile.c:645-679 | A cell step changes only the pressures of a sensor-less slot in use. |
| TankPressure.TankFromKeeps | profile.c:640-680 | So does the rest of the pass. |
| TankPressure.FillTankKeeps | profile.c:621-681 | Filling changes only the pressures of in-use slots without a sensor reading, and never the first entry. |
| TankPressure.TankFromPrefix | profile.c:640-680 | Entries already passed are not changed again. |
| TankPressure.TankStepInterpolatedBetween | profile.c:660-678 | An interpolated pressure lies between the interpolation's start and end, and becomes the cylinder's running pressure. |
| PressureSetup.FirstInUse | profile.c:998-1005 | The first entry with that cylinder in use, or none. |
| PressureSetup.LastInUse | profile.c:1007-1014 | The last entry with that cylinder in use, or none. |
| PressureSetup.SetSensor | profile.c:1003-1012 | Setting one sensor pressure changes only that slot. |
| PressureSetup.Seeded | profile.c:985-1015 | Seeding keeps the length and well-formedness. |
| PressureSetup.PopulateCylinderPressureData | profile.c:985-1015 | The entries become exactly `Seeded` of the old ones; entries past nr are untouched. |
| PressureSetup.FindReading | profile.c:989-996 | True exactly when some in-use entry of that cylinder has a sensor pressure. |
| PressureSetup.FindFirstInUse | profile.c:998-1005 | It finds the `FirstInUse` entry, or reports that there is none. |
| PressureSetup.FindLastInUse | profile.c:1007-1014 | It finds the `LastInUse` entry. |
| PressureSetup.SetSensorKeepsUsage | profile.c:1003-1012 | Seeding never changes a usage. |
| PressureSetup.SeededChangesOnlyEnds | profile.c:985-1015 | Nothing changes when any in-use entry has a reading or none is in use. Otherwise only the first in-use entry (start) and the last (end) change, and end wins when they coincide. |
| PressureSetup.SeededKeepsReadings | profile.c:985-1015 | Usages and existing sensor readings survive seeding. |
| PressureSetup.StartPressure | profile.c:1059 | A manual start pressure wins, otherwise the sample start. |
| PressureSetup.EndPressure | profile.c:1060 | A manual end pressure wins, otherwise the sample end. |
| PressureSetup.SetupFrom | profile.c:1051-1079 | Seeding every cylinder keeps length and well-formedness. |
| PressureSetup.SetupGasSensorPressure | profile.c:1051-1079 | The entries become exactly `SetupFrom` of the old ones. |
| PressureSetup.SetupKeepsReadings | profile.c:1051-1079 | Usages and existing readings survive the whole setup. |
| PressureSetup.TrackPointSegments | profile.c:1089-1106 | Each cylinder's track has one segment per in-use entry, and each segment is a point with no pressure-time, no end and a used slot. |
| PressureSetup.Track | profile.c:1089-1106 | The segment track of one cylinder that the loop builds, one point segment per in-use entry. Stated by `TrackPointSegments`. |
| PressureSetup.PopulatePressureInformation | profile.c:1081-1143 | The tracks built are exactly `Track` for each cylinder; no entry changes. |
| Densify.ClearSensors | profile.c:944-945 | Every sensor pressure becomes 0 and nothing else changes. |
| Densify.Inserted | profile.c:937-945 | An inserted entry copies its predecessor, with only time and depth changed and every sensor pressure 0. |
| Densify.InsertedOfInserted | profile.c:937-945 | Copying an inserted entry is the same as copying the original. |
| Densify.SampleEntry | profile.c:953-970 | A sample's own entry: its time, depth, temperature and that sensor's pressure, with every other cylinder zero. |
| Densify.ClampedTime | profile.c:927-931 | A sample time before the previous one is raised to it. |
| Densify.GapCount | profile.c:932-934 | The number of filler entries: 10 s steps strictly inside the gap, and none past maxtime. |
| Densify.Gap | profile.c:932-948 | The fillers lie at `lasttime + 10, + 20, …`. |
| Densify.GapEntry | profile.c:937-945 | The k-th filler is at `lasttime + 10*(k+1)`. |
| Densify.GapPrefix | profile.c:932-948 | The first n fillers. |
| Densify.Step | profile.c:919-975 | Taking one sample moves `lasttime`/`lastdepth` to it and accumulates `has_ndl`. |
| Densify.Run | profile.c:919-975 | The run never loses entries and ends with `0 <= lasttime <= maxtime`. |
| Densify.RunStops | profile.c:950-951 | A sample past maxtime adds its fillers and ends the run. |
| Densify.RunSteps | profile.c:919-975 | Any other sample is one `Step`. |
| Densify.DensifiedOfRun | profile.c:977-980 | The result is the run's entries plus the two trailers at the run's last time +1 and +2. |
| Densify.Densified | profile.c:909-980 | The series `populate_plot_entries` leaves: the run from the two fillers, then two trailers. Stated by `DensifiedSteps`, `DensifiedLength`, `DensifiedCopies`, `DensifiedTrailing`, `DensifiedHasSample`, `SamplePositionsIncrease` and `DensifiedWhole`. |
| Densify.Trailer | profile.c:978-979 | A trailer is a zeroed entry with only its time set. |
| Densify.FillGap | profile.c:932-948 | The filler loop writes exactly `Gap` after the entries so far. |
| Densify.PutGapEntry | profile.c:937-947 | One filler is appended. |
| Densify.Put | profile.c:937-974 | Writing at idx extends the written prefix by that entry. |
| Densify.DensifySample | profile.c:920-974 | One loop iteration either stops with the fillers, or takes the sample, keeping room in the allocation. |
| Densify.AppendTrailers | profile.c:977-980 | The two trailers, at `lasttime+1` and `lasttime+2`, follow the written entries, which are kept. |
| Densify.Resample | profile.c:915-975 | The sample loop leaves exactly the run's entries and state. |
| Densify.PopulatePlotEntries | profile.c:895-983 | The allocation holds `samples + 5 + maxtime/10` entries, the count never exceeds it, and the written entries are exactly `Densified`. |
| Densify.TenSecondStepsSorted | profile.c:919-975 | Steps of 0 to 10 s make the profile sorted by time. |
| Densify.StepKeepsStepped | profile.c:919-975 | A step keeps consecutive times 0 to 10 s apart. |
| Densify.RunTenSecondSteps | profile.c:919-975 | So does the whole run. |
| Densify.DensifiedSteps | profile.c:909-980 | There are at least four entries, and before the trailers consecutive times differ by 0 to 10 s and are sorted. |
| Densify.RunExtends | profile.c:919-975 | Entries once written are kept. |
| Densify.RunLength | profile.c:909-975 | The run writes at most one entry per sample plus one per 10 s up to maxtime. |
| Densify.DensifiedLength | profile.c:909-980 | The count never exceeds the allocation `samples + 5 + maxtime/10` (at most `samples + 4 + maxtime/10`). |
| Densify.GapCopies | profile.c:937-945 | Each filler is its predecessor copied with only time/depth changed and sensor pressures cleared. |
| Densify.RunCopies | profile.c:919-975 | Every entry of the run is such a copy or a sample's own entry. |
| Densify.DensifiedCopies | profile.c:915-980 | The two leading fillers are zero. Every later entry before the trailers is a copy or a sample entry. |
| Densify.RegressingSampleClamped | profile.c:927-931 | A sample earlier than the previous one gets no fillers and is written at the previous time. |
| Densify.DensifiedTrailing | profile.c:977-979 | The last two entries are at `lasttime+1` and `lasttime+2`, zeroed. |
| Densify.TrailingAfterCutOffExample | profile.c:932-979 | After a cut-off at maxtime, the trailers can lie before the inserted entries. |
| Densify.FirstPast | profile.c:920-921 | The index of the first sample whose time is past maxtime, or the number of samples when there is none: every earlier sample is at or before maxtime. |
| Densify.TimeBefore | profile.c:918-972 | The `lasttime` the loop carries into sample j is never negative. |
| Densify.TimeBeforeIsLatest | profile.c:918-972 | That time is the latest of 0 and the times of the samples before j: at least each of them, and 0 or one of them. |
| Densify.TempBeforeIsLastNonzero | profile.c:966-970 | The temperature carried into sample j is 0 exactly when every earlier sample has temperature 0, and otherwise is the last nonzero one. |
| Densify.Before | profile.c:919-975 | The loop state before sample j, for every sample j before the first one past maxtime, is a well-formed state. |
| Densify.BeforeStep | profile.c:920-975 | A sample before the first one past maxtime does not stop the loop, and the state after it is one `Step` from the state before it. |
| Densify.CarriesStep | profile.c:927-973 | If the state before sample j - 1 holds the carried time, temperature and depth, so does the state before sample j. |
| Densify.BeforeFields | profile.c:917-973 | Every state before sample j holds as `lasttime` the carried time, as `lasttemp` the last nonzero temperature and as `lastdepth` the previous sample's depth (0 at the start). |
| Densify.RunStep | profile.c:919-975 | Running from the state before sample j - 1 is the same as running from the state before sample j. |
| Densify.RunFromBefore | profile.c:919-975 | The whole run equals the run resumed from the state before any sample j up to the first one past maxtime. |
| Densify.BeforeNext | profile.c:932-970 | Taking sample j appends that sample's fillers and then its own entry at the clamped time with the carried temperature. |
| Densify.BeforeLength | profile.c:932-970 | The entries before sample j end just after the position of sample j - 1's entry. |
| Densify.DensifiedExtends | profile.c:919-980 | The entries of every state before a sample j are a prefix of the final series, ahead of the two trailers. |
| Densify.PrefixParts | profile.c:932-970 | Where a prefix is the entries so far, a gap and one entry, that entry is at the position after the gap and the gap fills the part between. |
| Densify.DensifiedHasSample | profile.c:919-975 | Every sample j before the first one past maxtime has its own entry in the final series at a position before the trailers, with the clamped time and the carried temperature; the entries between the previous sample's entry (or the two leading fillers) and it are exactly that sample's gap. |
| Densify.SampleEntryAt | profile.c:932-970 | The position part of the same: the sample's entry and its gap, right after the state before it. |
| Densify.NextSampleLater | profile.c:932-970 | Sample j's entry lies after sample j - 1's. |
| Densify.PrevSampleEarlier | profile.c:932-970 | The same, stated from the earlier sample's index. |
| Densify.SamePos | profile.c:932-970 | Equal sample indices give equal positions. |
| Densify.SamplePositionsIncrease | profile.c:919-975 | The positions of the samples' entries strictly increase with the sample index. |
| Densify.StopsAtFirstPast | profile.c:920-921 | Of the samples up to the first one past maxtime, exactly that one stops the loop. |
| Densify.RunWhole | profile.c:919-975 | The run ends with the state before the first sample past maxtime plus that sample's fillers, or with the state after the last sample when none is past maxtime. |
| Densify.DensifiedWhole | profile.c:909-980 | The final series is the state before the first sample past maxtime, that sample's fillers if there is one, and the trailers one and two seconds after the carried time. |
| Densify.DensifiedEnds | profile.c:977-980 | The final series is the run's entries followed by the trailers at the run's last time. |
| Densify.SortedSampleAtOwnTime | profile.c:919-975 | With sample times sorted and the first one not negative, every sample at or before maxtime has its entry in the series at its own time, before the trailers. |
| GasChange.GetNextEvent | profile.c:725-735 | The first event at or after the position with that name. None for an empty name or when there is none. |
| GasChange.GasChanges | profile.c:752-766 | The gas-change events from a position onwards, all named "gaschange". |
| GasChange.GasChangesSkip | profile.c:725-735 | Skipping events with other names does not change the gas changes found. |
| GasChange.TargetO2 | profile.c:693-694 | O2 comes from the low 16 bits of the event value, in permille, times 10. |
| GasChange.TargetHe | profile.c:693-694 | He comes from the high bits, times 10. |
| GasChange.TargetRoundTrip | profile.c:693-694 | Encoding O2 and He in the two halves reads back exactly. |
| GasChange.Distance | profile.c:707-716 | The score is an int: the o2 square, plus the he square for type 25 events, each wrapped to 32 bits, and so is their sum. When the exact squared distance fits an int, the score is exactly that. |
| GasChange.OverflowPicksCylinder | profile.c:707-720 | With a plain gas change announcing 5000 % o2 and only a 21 % cylinder in slot 1, the exact square 2479044100 exceeds INT_MAX, the wrapped score is negative, and slot 1 is picked. |
| GasChange.BestFrom | profile.c:700-721 | The scan of cylinders from i on, with the running best and score; it always returns a valid index. Its meaning is stated by `BestFromCorrect`. |
| GasChange.BestFromNoData | profile.c:703-705 | Cylinders without data never change the scan's choice. |
| GasChange.BestCylinder | profile.c:683-723 | The cylinder chosen is a valid index. |
| GasChange.ScanStep | profile.c:700-721 | One step of the scan keeps the running best/score invariant. |
| GasChange.BestFromCorrect | profile.c:700-721 | The scan ends in a state meeting the invariant. |
| GasChange.BestCylinderIsFirstMinimum | profile.c:683-723 | Among cylinders with data, the choice is the lowest index strictly minimising the score; 0 when no cylinder has data. |
| GasChange.GetCylinderIndex | profile.c:683-723 | The loop returns `BestCylinder`. |
| GasChange.Score | profile.c:707-716 | The int statements of the loop compute `Distance`, overflow included. |
| GasChange.Stamp | profile.c:741-748 | Only the given cylinder's usage changes. Its sensor pressure is cleared only when the usage differs. |
| GasChange.StampIdempotent | profile.c:741-748 | Stamping twice equals stamping once. |
| GasChange.RangeEnd | profile.c:739-749 | The range runs while the unsigned time is at most the unsigned end, and stops at the first entry past it. |
| GasChange.StampRange | profile.c:737-750 | Entries in the range are stamped and all others kept. |
| GasChange.SetCylinderIndex | profile.c:737-750 | Returns the first index past the range and leaves exactly `StampRange`. |
| GasChange.StampLoop | profile.c:739-749 | The loop stamps exactly the range. |
| GasChange.StampEntry | profile.c:741-748 | One entry is stamped and nothing else changes. |
| GasChange.RangeEndToTheEnd | profile.c:765 | With end `~0u` every remaining entry is stamped. |
| GasChange.AtChangeTimeKeepsPrevious | profile.c:739-749 | An entry exactly at a gas-change time keeps the previous cylinder; the next range starts after it. |
| GasChange.ApplyChanges | profile.c:757-765 | Applying the changes keeps length and well-formedness. |
| GasChange.StampUntil | profile.c:765 | Stamping to the end keeps length and well-formedness. |
| GasChange.GasChangeSpec | profile.c:752-766 | Without a gas-change event the entries are unchanged (the early return); the length is always kept. Which cylinder each entry gets is stated by `GasChangeSpecStretches` and `SortedGasChangeCylinders`. |
| GasChange.ApplyChangesCons | profile.c:757-764 | One change stamps up to its time, then switches to its best cylinder. |
| GasChange.TrackChange | profile.c:757-764 | One loop iteration advances the specification by one change. |
| GasChange.CheckGasChangeEvents | profile.c:752-766 | The entries become exactly `GasChangeSpec` of the old ones, with i starting at 0. So every entry is stamped once, with the cylinder of its stretch (`GasChangeSpecStretches`). |
| GasChange.StretchStart | profile.c:757-765 | Where the entries of the m-th cylinder start: the start for m = 0, then where `set_cylinder_index` stops for change m - 1. It lies between the start and the number of entries. |
| GasChange.StretchCylinder | profile.c:754-761 | The cylinder of stretch m: the starting cylinder before the first change, then the best match for change m - 1. |
| GasChange.StretchStartStep | profile.c:757-765 | Each stretch starts no earlier than the one before it. |
| GasChange.StretchStartMonotone | profile.c:757-765 | A later stretch never starts before an earlier one. |
| GasChange.StretchCovers | profile.c:757-765 | Every entry from the start on lies in some stretch; the last one runs to the end because of `~0u`. |
| GasChange.StretchUnique | profile.c:757-765 | No entry lies in two stretches. |
| GasChange.RangeEndSameTimes | profile.c:739-749 | Where `set_cylinder_index` stops depends only on the entry times. |
| GasChange.StretchStartSameTimes | profile.c:757-765 | So do all the stretch starts. |
| GasChange.StampUntilSameTimes | profile.c:741-748 | Stamping keeps every entry's time. |
| GasChange.ApplyChangesBefore | profile.c:757-765 | Entries before the tracker's start are never touched. |
| GasChange.InLaterStretch | profile.c:757-765 | Stretch m >= 1 from the start is stretch m - 1 from where the first change's range ends, after that range is stamped. |
| GasChange.ApplyChangesStretch | profile.c:757-765 | An entry of stretch m ends up as the old entry stamped OC with that stretch's cylinder: stamped once, every other slot and field kept. |
| GasChange.GasChangeSpecStretches | profile.c:752-766 | With a gas change, every entry of stretch m is the old entry stamped OC with cylinder 0 for m = 0 and with the best match for change m - 1 after that. |
| GasChange.CylinderAtTime | profile.c:754-761 | The cylinder breathed at a time: the best match for the last change strictly before it, or 0 when every change is at or after it. |
| GasChange.RangeEndSkip | profile.c:739-749 | Starting the range later, at an entry that would have been stamped anyway, stops at the same place. |
| GasChange.OrderedStretchStart | profile.c:757-765 | With changes in time order, stretch m (m >= 1) starts at the first entry, compared as unsigned, later than change m - 1. |
| GasChange.SortedRangeEnd | profile.c:739-749 | On entries sorted by time with every time in [0, 2^32) (`TimesInRange`) and `0 <= t < 2^32`, an entry lies at or after the range end for time t exactly when its time is after t. |
| GasChange.SortedInStretch | profile.c:757-765 | On a sorted profile with every entry time in [0, 2^32) (`TimesInRange`) and changes in time order, an entry is in stretch m exactly when change m - 1 is strictly before its time and change m is at or after it. |
| GasChange.SortedStretchBound | profile.c:739-749 | On a sorted profile with every entry time in [0, 2^32) (`TimesInRange`), an entry is at or after stretch m's start exactly when change m - 1 is strictly before its time. |
| GasChange.CylinderAtTimeOfStretch | profile.c:754-761 | The cylinder of a stretch is the cylinder at the time of every entry inside it. |
| GasChange.SortedGasChangeCylinders | profile.c:752-766 | On a sorted profile with every entry time in [0, 2^32) (`TimesInRange`) and changes in time order, every entry is stamped OC with the best match for the last change strictly before its time, or cylinder 0 when there is none. |
| GasChange.SortedEntryCylinder | profile.c:752-766 | The same for one entry, on a sorted profile with every entry time in [0, 2^32) (`TimesInRange`). |
| GasChange.SingleChangeAtSixHundred | profile.c:741 | With one gas change at 600 s on a sorted profile with every entry time in [0, 2^32) (`TimesInRange`), the entries up to and including 600 s stay on cylinder 0, since the range stops only at a time `>` the end; the later ones get the change's best match. |
| PlotLimits.Signed | profile.c:847-851 | The int whose unsigned value is the given number. |
| PlotLimits.CylinderMaxIsUnsignedMaximum | profile.c:847-851 | For any int start pressures, the result read as unsigned is at least the initial value and every manual start pressure read as unsigned, and it is the initial value or one of the start pressures. |
| PlotLimits.MinusOnePinsCylinderMax | profile.c:847-851 | Once the maximum is -1 (`~0u` as unsigned), no later cylinder changes it. |
| PlotLimits.NegativeStartPinsMaximum | profile.c:847-851 | A manual start of -1 mbar on the first cylinder becomes the maximum and a later 200000 mbar does not replace it. |
| PlotLimits.CylinderMaxIsMaximum | profile.c:847-851 | With start pressures between 0 and the largest int, where the unsigned compare is a plain one, the maximum is at least every manual start pressure and is one of them, or the initial value. |
| PlotLimits.CylinderMax | profile.c:847-851 | The first loop, with the unsigned compare and the unsigned value stored back. Stated by `CylinderMaxIsUnsignedMaximum`, `NegativeStartPinsMaximum` and `CylinderMaxIsMaximum`. |
| PlotLimits.ScanComputer | profile.c:854-882 | The sample loop over one dive computer. Stated by `ScanComputerCovers`. |
| PlotLimits.MaxLimits | profile.c:829-893 | What `calculate_max_limits` leaves, with the minimum pressure reset to 0 when above the maximum. Stated by `MaxDepthIsMaximum`, `MaxTimeCoversDive`, `MaxTempCoversDive` and `PressureRange`. |
| PlotLimits.SampleStep | profile.c:854-882 | One sample updates each limit as the source's tests do, including the minimum-temperature test. |
| PlotLimits.ScanComputerCovers | profile.c:854-882 | One computer's scan extends the limits to cover every sample. |
| PlotLimits.ScanComputersCovers | profile.c:841-882 | So does the scan of every computer. |
| PlotLimits.MaxDepthIsMaximum | profile.c:829-893 | The depth limit is the largest of the dive's maximum and every sample depth, and is one of them. |
| PlotLimits.MaxTimeCoversDive | profile.c:829-893 | The time limit is at least the time of every sample taken below the surface threshold or right after one. |
| PlotLimits.MaxTempCoversDive | profile.c:829-893 | The maximum temperature bounds every temperature. |
| PlotLimits.PressureRange | profile.c:829-893 | With manual start pressures between 0 and the largest int, the maximum pressure bounds every start and sample pressure. The minimum is 0 or at most every nonzero sample pressure, and never above the maximum. |
| PlotLimits.MinTempQuirk | profile.c:864-865 | A known dive minimum is never lowered, and non-negative temperatures are ignored. |
| PlotLimits.MinTempQuirkExample | profile.c:864-865 | A sample colder than the dive's minimum leaves the minimum unchanged. |
| PlotLimits.CalculateMaxLimits | profile.c:829-893 | The loops compute exactly `MaxLimits`. |
| PlotLimits.ScanSamples | profile.c:854-882 | The sample loop computes `ScanComputer`. |
| EventNames.Remembered | profile.c:131-152 | Known or empty names change nothing. A new name is appended with plotting on. |
| EventNames.RememberedKnows | profile.c:131-152 | After remembering, the name is known, and remembering it again changes nothing. |
| EventNames.PrefixIsNotAdded | profile.c:138-140 | A prefix of a known name is never added ("gas" after "gaschange"). The converse is added. |
| EventNames.IsPrefix | profile.c:138-140 | `strncmp(name, other, strlen(name)) == 0`: name is a prefix of other. Stated by `PrefixIsNotAdded`. |
| EventNames.FirstEqual | qt-ui/profilegraphics.cpp:219-226 | The first slot with an equal name, or the count. |
| EventNames.PlotEnabled | qt-ui/profilegraphics.cpp:987-997 | A name without a slot is always plotted. |
| EventNames.HiddenHidesOnlyFirst | qt-ui/profilegraphics.cpp:219-226 | Hiding switches off only the first equal slot and keeps every name, so an existing name is then not plotted. |
| EventNames.FirstEqualSameNames | qt-ui/profilegraphics.cpp:219-226 | The lookup depends on names only. |
| EventNames.ShownPlotsAll | qt-ui/profilegraphics.cpp:233-235 | Unhiding keeps names and makes every name plotted. |
| EventNames.EventTable.constructor | profile.c:109-111 | An empty table with no allocation. |
| EventNames.EventTable.Clear | profile.c:126-129 | The used count drops to 0; slots and allocation stay. |
| EventNames.EventTable.Remember | profile.c:131-152 | The used names become `Remembered`. The allocation grows by 10 when full. |
| EventNames.EventTable.Hide | qt-ui/profilegraphics.cpp:219-226 | The used names become `Hidden`; the count is kept. |
| EventNames.EventTable.UnhideAll | qt-ui/profilegraphics.cpp:233-235 | The used names become `Shown`; the count is kept. |
| DcSelect.Normalised | profile.c:1426-1428 | A negative number is raised into range by whole list lengths. |
| DcSelect.Selected | profile.c:1421-1436 | A valid position is kept, and past the end gives the first computer. |
| DcSelect.SelectedFromEnd | profile.c:1426-1428 | -1 is the last computer. |
| DcSelect.SelectedWraps | profile.c:1426-1428 | Any negative number wraps round the list. |
| DcSelect.NrDcs | profile.c:1411-1419 | Counting the list gives its length. |
| DcSelect.DcSelector.constructor | profile.c:1421-1436 | The selector holds the given `dc_number`. |
| DcSelect.DcSelector.SelectDc | profile.c:1421-1436 | Returns the `Selected` computer, resetting `dc_number` to 0 only when it pointed past the end. |
| Details.PlotDetailsEntry | profile.c:1582-1586 | The first entry with `sec >= time`, otherwise the last. None for an empty profile. |
| Details.CompareSamples | profile.c:1592-1664 | None on a missing entry or equal times. Otherwise the entries are ordered by time and give: the delta time and depth; the time-weighted average depth and speed divided by the duration; the least and greatest depth; the fastest ascent and descent; the cylinders used. |
| Details.RangeStats | profile.c:1642-1663 | The extremes of the range: the least depth, the deepest depth or 0, the fastest ascent or 0, the fastest descent or 0, and which cylinders are in use. Part of the contract of `CompareSamples`. |
| Details.Walk | profile.c:1636-1662 | The accumulation loop yields `Walked` over the range. |
| Details.Visit | profile.c:1636-1662 | One entry extends `Walked` by one. |
| Details.WalkedStep | profile.c:1636-1662 | The accumulators' invariant is kept by one entry. |
| Details.UpdateExtremes | profile.c:1644-1659 | Each extreme is updated as the source's tests do. Cylinder flags accumulate usage; gas is used when any flag is set. |
| Details.MarkCylinders | profile.c:1654-1659 | The cylinder flags accumulate usage. |
| Details.AverageDepthBetween | profile.c:1642-1663 | With non-negative depths, the average depth lies between the least and greatest depth of the range. |
| Details.WeightedDepthBounds | profile.c:1642 | The weighted depth sum is bounded by the depth bounds times the duration. |
| Graphics.SacColorOf | qt-ui/profilegraphics.cpp:951-965 | Printing gives the default colour. Otherwise it gives a bucket index in range. |
| Graphics.SacColorMonotone | qt-ui/profilegraphics.cpp:951-965 | A higher SAC never gets a lower bucket. |
| Graphics.SacColorBand | qt-ui/profilegraphics.cpp:951-965 | Away from the clamps the bucket is the 2000 ml/min band of `sac - avg + 7000`, and anything below the first band is bucket 0. |
| Graphics.SacColorOfAverage | qt-ui/profilegraphics.cpp:951-965 | The average SAC gets bucket 3, or the last one. |
| Graphics.Candidate | qt-ui/profilegraphics.cpp:1119-1139 | Every candidate increment is at least 10 s. |
| Graphics.CandidateIncreasing | qt-ui/profilegraphics.cpp:1119-1139 | Candidates strictly increase. |
| Graphics.ManyMarkers | qt-ui/profilegraphics.cpp:1135-1139 | More than 12 markers means the dive is longer than the increment. |
| Graphics.TimeMarkerIncrement | qt-ui/profilegraphics.cpp:1119-1139 | The increment is at least 10 s and gives at most 12 markers. It is a table entry times a power of two, and every smaller candidate gives more than 12. |
| Graphics.FirstIndex | qt-ui/profilegraphics.cpp:251-253 | The first position holding the event. |
| Graphics.Unlinked | qt-ui/profilegraphics.cpp:251-257 | Unlinking removes one element. |
| Graphics.UnlinkedRemovesOne | qt-ui/profilegraphics.cpp:251-257 | The list loses exactly one occurrence of the event, and every other node stays. |
| Graphics.UnlinkedDistinct | qt-ui/profilegraphics.cpp:251-257 | In a list of distinct nodes, the event is gone afterwards. |
| Graphics.DiveComputerEvents.constructor | qt-ui/profilegraphics.cpp:251 | The list holds the given events. |
| Graphics.DiveComputerEvents.RemoveEvent | qt-ui/profilegraphics.cpp:251-257 | The list becomes `Unlinked`: the first occurrence is removed and the order of the others is kept. |
| Graphics.PlotOneEvent | qt-ui/profilegraphics.cpp:987-1012 | No marker when the name is hidden, for a gas change before 30 s, or for an empty profile. Otherwise the marker goes to the first entry later than the event, or to the last entry. |
| Graphics.PercentIsNearest | qt-ui/profilegraphics.cpp:777-779 | `(permille+5)/10` is the nearest percent. |
| Graphics.GasLabel | qt-ui/profilegraphics.cpp:774-779 | The label is "air" exactly for air. |
| Graphics.NitroxLabelReadsBack | qt-ui/profilegraphics.cpp:776-777 | A nitrox label is "EAN" followed by the rounded O2 percentage. |
| Graphics.TrimixLabelReadsBack | qt-ui/profilegraphics.cpp:778-779 | A trimix label has one '/', with the rounded O2 and He percentages on either side. |
| Graphics.GasLabelsDistinguish | qt-ui/profilegraphics.cpp:774-779 | Equal labels mean the same kind of mix and the same rounded percentages. |
| Graphics.DepthLabelsExact | qt-ui/profilegraphics.cpp:808-827 | An entry gets a deep label exactly when it is at least 2 m deep and its own `max[2]`. It gets a shallow label exactly when it is its own `min[2]` and not its own `max[2]`. |
| Graphics.EntryLabelsExact | qt-ui/profilegraphics.cpp:811-825 | The same for one entry. |
| Graphics.DepthLabelsOrdered | qt-ui/profilegraphics.cpp:808-827 | Labels come in entry order. |
| Graphics.TextSamples | qt-ui/profilegraphics.cpp:799-827 | The loop picks exactly `DepthLabels` over all entries. |
| Graphics.LabelEntry | qt-ui/profilegraphics.cpp:809-825 | One iteration adds that entry's labels, and `last` is -1 again. |
| Graphics.EntryLabels | qt-ui/profilegraphics.cpp:810-822 | The labels one entry gets: deep at its window's maximum, shallow at its minimum unless it just got the deep one, none above 2000 mm. Stated by `EntryLabelsExact`. |
| Graphics.DepthLabels | qt-ui/profilegraphics.cpp:807-825 | The labels of the first n entries, in entry order. Stated by `DepthLabelsExact`. |
| Common.TruncDiv | profile.c:500 | C's `/`: the magnitude is the quotient of magnitudes, with the sign of the operands' product. |
| Common.Unsigned | profile.c:737-749 | The value as a 32-bit unsigned number. |
| Common.Wrap32 | profile.c:707-716 | The 32-bit int congruent to the value modulo 2^32; a value that fits is kept. |
| Common.NatToStringRoundTrip | qt-ui/profilegraphics.cpp:777-779 | Decimal text reads back as the number. |
| Common.IntToStringRoundTrip | qt-ui/profilegraphics.cpp:777-779 | Signed decimal text reads back as the number. |

## Quirks of the source, modelled as written

- **Chain fill.** In `fill_missing_segment_pressures`, a chain whose pressure-time sum is 0 gets every end set to the start pressure. This overwrites a recorded nonzero end (profile.c:499-501; `Segments.ChainZeroSum`).
- **Surface integration.** In `pressure_time`, a CCR diluent step that does not descend, and any slot not in use, integrates at the surface pressure `depth_to_mbar(0)`. It does not give 0 (profile.c:555-564; `Segments.ShallowDiluentCountsSurface`).
- **No fill in `populate_pressure_information`.** The function never clears `first_segment_entry` (profile.c:1101-1106). Three things follow:
  - every in-use entry opens a new point segment (`PressureSetup.TrackPointSegments`);
  - lines 1108-1135 are unreachable;
  - `missing_pr` stays false, so no fill is called from there.

  The fill operations are modelled standalone over explicit segment tracks.
- **Minimum temperature.** `calculate_max_limits` lowers `mintemp` only when it is 0 and the sample is below 0 Kelvin (profile.c:864-865; `PlotLimits.MinTempQuirk`, `PlotLimits.MinTempQuirkExample`).
- **Prefix dedupe.** `remember_event` compares only the new name's length, so a prefix of a known name is never recorded (profile.c:138-140; `EventNames.PrefixIsNotAdded`).
- **Text samples.** In `plot_text_samples`, `last` is always -1 by the end of an iteration, since a depth in mm never equals a depth in dm that was stored in the same iteration. So the `!= last` tests suppress only the shallow label of an entry that has just got the deep label, and never one across entries (`Graphics.EntryLabels`, `Graphics.DepthLabelsExact`).
- **Gas-match overflow.** In `get_cylinder_index` the squared o2 difference is an int. A gas-change value whose o2 part lies more than about 4634 % from a cylinder's o2 squares past INT_MAX and wraps, so a far-off cylinder can win (profile.c:707-716; `GasChange.OverflowPicksCylinder`).
- **Trailers.** When a sample past `maxtime` ends the resampling after inserting fillers, the two trailing entries are at the last taken sample's time +1 and +2. They lie before the fillers (`Densify.TrailingAfterCutOffExample`).
- **Unsigned comparisons.** `set_cylinder_index` compares `sec` with an `unsigned` end (profile.c:737-749). A negative time therefore counts as later than every gas-change time below 2^31 and stops that range; the closing call with `~0u` still stamps it (`GasChange.RangeEndToTheEnd`). `calculate_max_limits` compares each manual start pressure with the running maximum as `unsigned` (profile.c:848-849). A negative start pressure therefore becomes the maximum, and no later cylinder replaces it (`PlotLimits.NegativeStartPinsMaximum`).

## Left out

- The decompression and NDL calculation (profile.c:1146-1284): an external tissue model in doubles.
- `calculate_gas_information` (profile.c:1286-1357): floating point throughout.
- `get_local_sac` and `calculate_sac` (profile.c:216-244, 1017-1044): a double `atm` and the external `gas_volume`.
- `plot_string` and the text-building half of `compare_samples` (profile.c:1438-1574, 1666-1716): localisation and `snprintf` formatting.
- The scaling setups `setup_temperature_limits`, `setup_pp_limits` and `get_cylinder_pressure_range`, and the `maxpp*9000` term of `get_maxdepth`: graphics scaling in doubles.
- The debug dumps and the `printf` of each sample in `populate_plot_entries`: output only.
- `list_free`: memory management, which has no counterpart over sequences.
- `calculate_max_limits_new`: a copy of `calculate_max_limits`, so the one model covers both.
- `populate_secondary_sensor_data`: its body is empty.
- qt-gui.cpp and qt-ui/groupedlineedit.cpp: application setup and widget painting. These files are not part of this model.
- The scene drawing, tooltips, translation and settings of the profile view: graphics only.
- The `free` of the removed event and `mark_divelist_changed` in `Graphics.DiveComputerEvents.RemoveEvent`: memory and global dirty flag.
- The `QMessageBox::question` confirmation before hiding or removing events (qt-ui/profilegraphics.cpp:215-218, 245-250): user input. `EventNames.EventTable.Hide` and `Graphics.DiveComputerEvents.RemoveEvent` model the Ok branch; on Cancel the source changes nothing.
- The event list is modelled as a sequence, not as linked nodes.
- Segments.Share: the source computes `(start-end)*(double)pt/pt_sum` and truncates on conversion to int. The model uses the exact rational quotient truncated toward zero. It does not model double rounding.
- TankPressure.InterpolatedPressure: the source adds 0.5 to a double and truncates. The model uses the exact rational value rounded by `(2n + d) / 2d` truncation. It does not model double rounding.
- Scale.MaxTime: takes a non-negative `maxtime`; the source's behaviour on a negative time, and int overflow of the rounding, are not modelled.
- Scale.MaxDepth: takes a non-negative depth; the source's conversion of a negative depth to `unsigned` is not modelled.
- Densify.PopulatePlotEntries: the NULL return when `calloc` fails (profile.c:910-913) is not modelled. The model always allocates the entries.
- Densify.SampleEntry: the source stores `po2/1000.0` as a double. The model keeps the sample's integer `po2`.
- `curPr0` in TankPressure.FillMissingTankPressures: the source leaves `cur_pr[]` of a cylinder with an empty track uninitialised. The model takes these values as a parameter.
- EventNames.EventTable.Remember: a failed `realloc` is not modelled.
- Null names are not modelled. Event names are sequences, and the empty sequence stands for the name tests that guard `NULL`.
- Integer overflow of the `compare_samples` accumulators is not modelled. These are the time-weighted depth and speed sums, which the model keeps unbounded.
- GasChange.Distance: the differences `get_o2 - target_o2` and `get_he - target_he` are exact integers. For a mix in permille and a decoded 16-bit target they fit an int; only the squares and their sum are wrapped.
- GasChange.CheckGasChangeEvents: the source passes an uninitialised `i` to `set_cylinder_index`. The model starts at entry 0.
- Zero initialisation: `calloc`'s zeroing in `populate_plot_entries` and the `memset` in `calculate_max_limits` are modelled only where the result reads them. These are the leading fillers, the trailers and the initial limits.
