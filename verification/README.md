# Flow123d in Dafny

Flow123d simulates groundwater flow and transport in fractured porous media. This project models the parts of it whose
behaviour is decided by logic and exact arithmetic rather than by libraries, and proves what they promise:

- the **time machinery**: the sorted, merging database of time marks, the time governor with its fixed intervals and step
  constraints, and the two-clock loop that couples water flow with transport;
- the **discrete Darcy system**: the row numbering over processes, the assembly, the local matrices of lines, triangles and
  tetrahedra, the time term and its rescaling, the postprocessing, and the balance of water they add up to;
- the **input reader**: the filter that removes comments, paths and references in JSON documents, the type-directed reading
  into storage, the typed accessors and the addresses in error messages;
- the **monomials** of a polynomial space, the **distribution of degrees of freedom**, and the **region fields** that records
  set as time goes on.

Arithmetic is over `real` and `int`; tolerances keep the values of the program (16 machine epsilons in the comparisons of
times, two in the merging of marks, 1e-14 in the rounding of step counts). Times are `Fin(t)` or one of the two infinities, with
the results that comparisons have for infinities in the program. The linear solver is a premise, `A x = b` holds exactly;
geometry that needs square roots (measures, normals, transformation into a plane) is data.

## How the files fit together

| file | what is in it |
|---|---|
| `Options.dfy`, `Times.dfy`, `TimeMarks.dfy`, `TimeGovernor.dfy`, `GovernorRuns.dfy`, `SteadyRuns.dfy`, `SequentialCoupling.dfy` | values that may be missing, times, marks, one governor, runs of an unsteady and of a steady governor, the coupling loop |
| `Matrices.dfy`, `TimeTerm.dfy`, `Assembly.dfy`, `Conservation.dfy`, `DarcyLaw.dfy`, `Postprocessing.dfy` | time term over runs, assembled system, balance of one step, rows of the sides and water at rest, postprocessing and the balance of every run |
| `FlowExamples.dfy` | steps on a rod of two elements that fail |
| `RowNumbering.dfy`, `MhDofHandler.dfy`, `DofHandler.dfy` | rows of the mixed-hybrid system, the way back to the mesh, degrees of freedom of finite elements |
| `LocalMatrix.dfy`, `Quadrature.dfy`, `PolynomialSpace.dfy` | local matrices, their quadratures, monomials |
| `JsonPath.dfy`, `InputTypes.dfy`, `Elaborator.dfy`, `Meaning.dfy`, `Accessors.dfy` | documents and paths, types and defaults, reading, what storage says about a document, typed access |
| `CommentFsm.dfy`, `FiniteStateFilter.dfy`, `RegionFields.dfy` | comment filter as a machine and as a stream filter, region fields |

Objects that the program changes in place are classes (`TimeMarks`, `TimeGovernor`, `HC_ExplicitSequential`, `Filter`, `LinSys`,
`FlowSystem`, `LumpedFlow`, `RowMaps`, `MH_DofHandler`, `DOFHandlerMultiDim`, `MHFEValues`, `JSONPath`, `EqDataBase`); each method is
tied to a function of the old state, and the lemmas are about these functions. The main results are reached through several
files: `Postprocessing.RunBalance`, for instance, uses the governor's invariant for the step, the time term for the
implicit Euler step, and the balance of the mesh for the fluxes.

## Where the code does less than its comments say

Each of these is the code as it stands, with the exact condition proved and an input that shows it.

- A block comment whose text ends in an odd number of stars is not closed by the next star and slash, and a line end right
  after a counted star is dropped (`CommentFsm.BlockCommentClosesIff`, `CommentFsm.LineNumbersKeptIff`, `CommentFsm.LineEndDropped`). The header of the JSON reader speaks of
  comments behind a hash; the machine knows `//` and `/* */` only.
- A reference to `/` does not lead to the root but to item 0 of a root array, because the empty second component counts as an
  index; keys with a slash, empty keys, keys of digits only and the key `..` cannot be named (`JsonPath.PrintedPathFoundIff`).
- Reading an obligatory key fails when the document gives `null` for it (`Accessors.ObligatoryReadFaultsIff`,
  `Accessors.NullForObligatory`).
- A new governor ignores `min_dt` and `max_dt` for its first step with or without `init_dt`
  (`TimeGovernor.FirstStepLimitedIff`, `TimeGovernor.FirstStepTooLong`, `TimeGovernor.FirstStepAllTheWay`);
  all later steps keep `max_dt` up to the rounding (`GovernorRuns.RunFromInputLimited`). A step may exceed the upper constraint by a
  factor of 1 + 1e-14 (`TimeGovernor.UpperExceededIff`), and a way that is tiny against the lower constraint gives
  no steps at all, an infinite step (`TimeGovernor.NoStepsIff`, `GovernorRuns.EstimatePassesMarkIff`, `GovernorRuns.LeapToInfinity`).
- A fixed time that the tolerant comparison does not tell from the present is jumped over (`GovernorRuns.JumpedIff`,
  `GovernorRuns.FixedTimeJumped`).
- A mark is stored at the time of an older mark within two epsilons (`TimeMarks.ExactPlaceIff`, `TimeMarks.MarkMoves`).
- The downward scan for the last mark starts a hundredth of the step behind the present. Where the tolerance reaches two epsilons
  behind that, the scan can miss a mark, and with a positive step the query for a current mark can be wrong
  (`TimeMarks.LastExactIff`, `TimeMarks.CurrentExactIff`, `TimeMarks.LastMissesBelowTolerance`).
- The lumped initial condition adds, side by side, a share of the element pressure to each edge: a uniform pressure arrives only
  where the shares sum to one (`TimeTerm.UniformPressureKeptIff`, `TimeTerm.PressureHalved`); and the two unsteady schemes store alike only for a unit
  cross-section (`TimeTerm.SchemesStoreAlikeIff`, `TimeTerm.SchemesDiffer`).
- The lumped postprocessing subtracts source shares from all fluxes, so water is conserved exactly when the shares on boundary
  sides sum to zero (`Conservation.MassConservedIff`, `FlowExamples.SourceIsLost`).
- The system is assembled once, but the postprocessing reads the data of its own time. With data that change, water is conserved
  exactly when the change of the storage at the boundary makes up for the source shares (`Conservation.DataConservedIff`,
  `Postprocessing.RunConservesWaterIff`, `FlowExamples.LateSourceIsLost`, `FlowExamples.LateStorageFlows`).
- A step meets a pressure condition on its edge exactly when nothing is stored there or the pressure already was the prescribed one
  (`Conservation.PressureConditionHoldsIff`, `FlowExamples.PressureIsMissed`), because the row of the edge also gets the time term.
- The degrees of freedom handed out for a cell are all of them exactly when the element has no groups of pairs, triples or
  sextuples (`DofHandler.DOFHandlerMultiDim.AllIndicesIff`, `DofHandler.PairIsKeptBack`).
- A field that its control field turns off in the first call is not looked at again, so it is missing when the control field
  turns it on later (`RegionFields.EmptyIff`, `RegionFields.NeededButEmpty`).

## Model

| member | source | states |
|---|---|---|
| CommentFsm.StepCases | src/input/comment_filter.hh:56-83 | the 21 rules, searched in order, are the machine described state by state; the fall-through is never reached |
| CommentFsm.FilterIdempotent | src/input/comment_filter.hh:52-84 | filtering twice is filtering once, and filtered text never enters a comment state, for every text |
| CommentFsm.LineNumbersKeptIff | src/input/comment_filter.hh:69-75 | the number of line ends is kept exactly when none arrives right after a counted star in a comment |
| CommentFsm.BlockCommentClosesIff | src/input/comment_filter.hh:69-75 | the first star and slash behind a comment text closes the comment exactly when the text ends in an even number of stars |
| CommentFsm.LineEndDropped | src/input/comment_filter.hh:69-75 | a concrete comment of two lines whose line end is lost |
| CommentFsm.DoubleStarStaysOpen | src/input/comment_filter.hh:74-75 | a concrete comment of three stars that stays open |
| CommentFsm.FilterStripsComments | src/input/comment_filter.hh:52-84 | on every sequence of code, quoted strings and comments the filter removes the comments and keeps the rest |
| FiniteStateFilter.Filter.Pop | src/input/finite_state_filter.hpp:127-133 | the buffer is a queue: the oldest character leaves, the others stay in order |
| FiniteStateFilter.Filter.ProcessEvent | src/input/finite_state_filter.hpp:214-247 | one character moves the machine and appends its output to the buffer |
| FiniteStateFilter.Filter.Get | src/input/finite_state_filter.hpp:302-327 | delivers the next filtered character, wherever the source blocks, and the end exactly when nothing is left |
| FiniteStateFilter.Filter.Put | src/input/finite_state_filter.hpp:329-340 | received and pending text together grow by the output for the character; refused characters stay in order |
| FiniteStateFilter.Filter.Close | src/input/finite_state_filter.hpp:342-352 | hands over what is pending to an accepting sink and starts afresh |
| FiniteStateFilter.ReadAll | src/input/finite_state_filter.hpp:302-327 | reading to the end delivers the pure output of the machine for any input and any blocking |
| FiniteStateFilter.WriteAll | src/input/finite_state_filter.hpp:329-352 | writing a text and closing delivers the pure output to a sink that accepts everything |
| PolynomialSpace.MonomialsLength | src/fem/fe_p.hh:261-295 | the reference list has binomial(degree + dim, dim) entries |
| PolynomialSpace.MonomialsComplete | src/fem/fe_p.hh:261-295 | every exponent vector of the degree is listed |
| PolynomialSpace.MonomialsIncreasing | src/fem/fe_p.hh:261-295 | only vectors of the degree are listed, each once, in strictly increasing order with the last variable most significant |
| PolynomialSpace.Increment | src/fem/fe_p.hh:282-293 | the odometer in place goes to the next vector, or runs past the last variable when there is none |
| PolynomialSpace.ListPowers | src/fem/fe_p.hh:279-294 | the constructor's loop ends and lists exactly the reference list, for every degree and dimension |
| PolynomialSpace.BasisValue | src/fem/fe_p.hh:297-308 | the accumulated product is the monomial |
| PolynomialSpace.BasisGrad | src/fem/fe_p.hh:311-329 | the array filled in place holds the derivatives by all variables |
| PolynomialSpace.GradientIsDerivative | src/fem/fe_p.hh:311-329 | the gradient is the value at zero of the polynomial difference quotient of the monomial |
| TimeMarks.AddedShape | src/coupling/time_marks.cc:83-104 | adding ors the bits into one mark or inserts one mark, and changes nothing else |
| TimeMarks.AddKeepsOrder | src/coupling/time_marks.cc:83-104 | marks stay sorted, at least two epsilons apart, between the stoppers |
| TimeMarks.DatabaseRepresentsAdds | src/coupling/time_marks.cc:57-104 | after any adds every requested bit is found within two epsilons of its time, and no other bits are there |
| TimeMarks.ExactPlaceIff | src/coupling/time_marks.cc:87-103 | a mark is stored at its own time exactly when every mark close to it has that time |
| TimeMarks.MarkMoves | src/coupling/time_marks.cc:87-103 | a concrete mark that is stored at the time of an older one |
| TimeMarks.TimeMarks.constructor | src/coupling/time_marks.cc:57-68 | a new database holds the two stoppers and has given out three types |
| TimeMarks.TimeMarks.NewMarkType | src/coupling/time_marks.cc:71-77 | every call gives a bit of its own until the word is used up |
| TimeMarks.TimeMarks.Add | src/coupling/time_marks.cc:83-104 | the vector after the call is the specified one |
| TimeMarks.TimeMarks.Next | src/coupling/time_marks.cc:125-132 | the scan stops and finds the least later mark that matches, up to the tolerance |
| TimeMarks.TimeMarks.Last | src/coupling/time_marks.cc:134-142 | the downward scan stops at a passed mark; it is the last one whenever the scan reaches a mark behind its start |
| TimeMarks.LastExactIff | src/coupling/time_marks.cc:134-142 | for which clocks the scan finds the last passed mark in every database: exactly those for which a mark two epsilons behind the start of the scan is in the future |
| TimeMarks.TimeMarks.IsCurrent | src/coupling/time_marks.cc:118-123 | true exactly when a matching passed mark lies in the last step, for every clock without a step or with a scan that reaches |
| TimeMarks.CurrentExactIff | src/coupling/time_marks.cc:118-123 | for which clocks the answer is right in every database: exactly those without a step or with a scan that reaches |
| TimeMarks.CurrentIff | src/coupling/time_marks.cc:118-123 | the last passed mark decides for all passed marks whether one lies in the last step |
| TimeMarks.LastMissesBelowTolerance | src/coupling/time_marks.cc:136-139 | a concrete database and clock for which the scan starts too early and misses a mark |
| TimeGovernor.StepCountLeast | src/coupling/time_governor.cc:281-288 | the number of steps is the least integer above the quotient less 1e-14 |
| TimeGovernor.EqualStepBounds | src/coupling/time_governor.cc:279-290 | equal steps fill the way; a step is below estimate times 1 + 1e-14, and above half of the estimate if there are several |
| TimeGovernor.NoStepsIff | src/coupling/time_governor.cc:281-290 | the step is infinite exactly when the way is below 1e-14 times the estimate |
| TimeGovernor.EstimateExceededIff | src/coupling/time_governor.cc:286-290 | the step exceeds the estimate exactly when the quotient was rounded down |
| TimeGovernor.ConstrainedBounds | src/coupling/time_governor.cc:276-277 | the estimate respects both constraints, the lower one where they conflict |
| TimeGovernor.UpperExceededIff | src/coupling/time_governor.cc:276-290 | with constraints that do not conflict a step exceeds the upper one exactly when the way is longer and its quotient by it was rounded down |
| TimeGovernor.UpperLimitCanBeExceeded | src/coupling/time_governor.cc:276-290 | a concrete step above the upper constraint |
| TimeGovernor.FirstStepLimitedIff | src/coupling/time_governor.cc:72-120 | with init_dt the first step is on every way at most max_dt and the rounding, and above half of min_dt if it is one of several, exactly when init_dt lies between them; without init_dt it is within max_dt on every way up to the end exactly when the whole time is, or is too short for any step |
| TimeGovernor.FirstStepTooLong | src/coupling/time_governor.cc:72-120 | a concrete record whose first step is five times max_dt |
| TimeGovernor.FirstStepAllTheWay | src/coupling/time_governor.cc:72-120 | a concrete record without init_dt whose first step is ten times max_dt |
| TimeGovernor.TimeGovernor.FromInput | src/coupling/time_governor.cc:72-120 | refuses the inputs the program refuses, otherwise builds the specified governor and adds the start and end as fixed marks |
| TimeGovernor.TimeGovernor.SteadyAt | src/coupling/time_governor.cc:151-190 | the steady governor as constructed, and its time as a mark without bits |
| TimeGovernor.TimeGovernor.EstimateStep | src/coupling/time_governor.cc:261-310 | the in-place estimate is the specified one in every branch |
| TimeGovernor.TimeGovernor.NextTimeStep | src/coupling/time_governor.cc:314-361 | the state after the call is the specified one in every branch |
| TimeGovernor.TimeGovernor.FixDtUntilMark | src/coupling/time_governor.hh:205-211 | the state after the call is the specified one; steady governors ignore it |
| TimeGovernor.TimeGovernor.SetUpperConstraint | src/coupling/time_governor.cc:212-234 | which of the three answers is given and what changes |
| TimeGovernor.UpperConstraintIff | src/coupling/time_governor.cc:212-234 | each of the three answers is given exactly on its side of the two constraints; a constraint that is taken bounds every estimate from above and is reached, any other changes nothing |
| TimeGovernor.TimeGovernor.SetLowerConstraint | src/coupling/time_governor.cc:236-258 | which of the three answers is given and what changes |
| TimeGovernor.LowerConstraintIff | src/coupling/time_governor.cc:236-258 | each of the three answers is given exactly on its side of the lower limit and the upper constraint; a constraint that is taken bounds every estimate from below, any other changes nothing |
| GovernorRuns.NextTimeSafe | src/coupling/time_governor.cc:314-361 | one step keeps the invariant, never passes the next fixed time, and the change flag tells the truth |
| GovernorRuns.FixDtSafe | src/coupling/time_governor.hh:205-211 | a fixed interval is a whole number of equal steps up to the next fixed time |
| GovernorRuns.RunKeepsInvariant | src/coupling/time_governor.cc:194-361 | in every run of steps, fixings and all three setters time never goes back and never passes the end |
| GovernorRuns.RunVisitsFixedTimes | src/coupling/time_governor.cc:314-361 | in every run each fixed time up to the time reached was the time of some state, exactly |
| GovernorRuns.RunReportsStepChange | src/coupling/time_governor.cc:328-353 | in every run the change flag is set exactly when a step differs from the one before |
| GovernorRuns.RunLevels | src/coupling/time_governor.cc:314-361 | in every run the level counts the steps made, and the last time is the time before the latest of them |
| GovernorRuns.RunStepsBounded | src/coupling/time_governor.cc:261-361 | a run takes at most as many steps as there are fixed times ahead plus twice the way over the least lower constraint |
| GovernorRuns.RunFinishes | src/coupling/time_governor.cc:194-361 | a run that asks for more steps than the bound, whatever setters and fixings come between, stands exactly at the end time |
| GovernorRuns.InitialStands | src/coupling/time_governor.cc:72-120 | a governor built from input satisfies the invariant of runs |
| GovernorRuns.EstimatePassesMarkIff | src/coupling/time_governor.cc:271-290 | a fresh estimate passes the next fixed time exactly when it makes no steps |
| GovernorRuns.LeapToInfinity | src/coupling/time_governor.cc:279-290 | a concrete record with its database: the first step goes over the end to infinity |
| GovernorRuns.JumpedIff | src/coupling/time_governor.cc:271-290 | a step above the tolerance jumps over a later fixed time exactly when the tolerant comparison takes that time for reached |
| GovernorRuns.FixedTimeJumped | src/coupling/time_governor.cc:271-290 | a concrete record and two fixed times, one of which the first step jumps over |
| GovernorRuns.RunStepsLimited | src/coupling/time_governor.cc:194-361 | in every run all steps after a state within a limit are at most the limit and the rounding |
| GovernorRuns.RunFromInputLimited | src/coupling/time_governor.cc:314-361 | in every run of a governor from its record all steps after the first, or after the first fixed interval, are at most max_dt and the rounding |
| GovernorRuns.PermanentLimits | src/coupling/time_governor.cc:194-203 | after new permanent limits outside a fixed interval nothing asks for steps above max_dt, and the lower limit is at least min_dt |
| GovernorRuns.GridKept | src/coupling/time_governor.cc:194-361 | with fixed times on a grid all operations, permanent limits included, stay enabled and every step is at least a grid width |
| SteadyRuns.SteadyStepEnds | src/coupling/time_governor.cc:318-326 | the step of a steady governor stands at the end time, which may be infinite: level one, no step left, no change flag, and nothing happens in a further step |
| SteadyRuns.SteadyRun | src/coupling/time_governor.cc:261-326 | in every run of a steady governor the first step asked for goes to the end and no other does anything; the estimate is infinite before it and zero after it; fixing and setters in between change none of this |
| SequentialCoupling.MidpointDecides | src/coupling/hc_explicit_sequential.cc:188-201 | the midpoint of the planned transport interval always names a clock that may advance, the water clock when both stand together |
| SequentialCoupling.CoupledFromInput | src/coupling/hc_explicit_sequential.cc:186-201 | two governors built from records with the same start and end, whose steps and fixed times fit grids, start the loop as it needs, also after the water has fixed its first interval |
| SequentialCoupling.StepAsPlanned | src/coupling/hc_explicit_sequential.cc:186-193 | the transport goes exactly where it planned to be, and keeps to the step of the water, up to the rounding, where that was taken as its upper constraint |
| SequentialCoupling.HC_ExplicitSequential.StepWater | src/coupling/hc_explicit_sequential.cc:201-213 | a new water solution at the next water time and a new fixed interval; the history records the step, where the transport stands and plans to be, and the midpoint of the two, which the water was behind |
| SequentialCoupling.HC_ExplicitSequential.StepTransport | src/coupling/hc_explicit_sequential.cc:214-230 | the transport step runs with the velocity of the latest water solution; the history records its interval, the midpoint of the interval and the time of the water, which is not before it |
| SequentialCoupling.HC_ExplicitSequential.Turn | src/coupling/hc_explicit_sequential.cc:186-233 | exactly one clock advances, by at least its grid width, and all invariants stay; the event says which, and its midpoint is half of the sum of the two ends of the planned transport interval |
| SequentialCoupling.HC_ExplicitSequential.RunSimulation | src/coupling/hc_explicit_sequential.cc:186-234 | the loop ends with both clocks at the end; in its history, which is one chain of times of either clock, the water advanced only when it was behind the midpoint of the transport interval, and each transport step used the latest water solution, which was not before its midpoint; the change flag is never read before it is set |
| TimeTerm.ModifiedHolds | src/flow/darcy_flow_mh.cc:1751-1765 | rescaling exactly when the step changed keeps diagonal times step equal to the storage, row by row |
| TimeTerm.SolvedIsEuler | src/flow/darcy_flow_mh.cc:1751-1765 | an exact solution of the modified system is one implicit Euler step from the old solution |
| TimeTerm.RunHolds | src/flow/darcy_flow_mh.cc:1751-1765 | in every run the matrix is the steady one plus a diagonal that fits the current step, however often the step changed |
| TimeTerm.RunIsBackwardEuler | src/flow/darcy_flow_mh.cc:1660-1675 | every solved step of every run is an implicit Euler step over exactly the time the governor moved |
| TimeTerm.RunRemembersPrevious | src/flow/darcy_flow_mh.cc:1764 | after every solved step of a run the state remembers the solution before it |
| TimeTerm.DiagonalTimesStep | src/flow/darcy_flow_mh.cc:1708-1727 | the assembled diagonal times the step is the storage of the sides of the edge, for any step |
| TimeTerm.UniformPressureKeptIff | src/flow/darcy_flow_mh.cc:1711-1727 | a uniform initial pressure arrives on an edge exactly when it is zero or the shares of its sides sum to one |
| TimeTerm.PressureHalved | src/flow/darcy_flow_mh.cc:1711-1727 | a concrete edge at which half of a uniform pressure arrives |
| TimeTerm.SchemesStoreAlikeIff | src/flow/darcy_flow_mh.cc:1634-1643 | the two unsteady schemes store alike in an element exactly for a unit cross-section or no storage |
| TimeTerm.SchemesDiffer | src/flow/darcy_flow_mh.cc:1634-1643 | a concrete element that stores twice as much in one of the schemes |
| TimeTerm.FlowSystem.SetupTimeTerm | src/flow/darcy_flow_mh.cc:1695-1749 | the lumped setup leaves a system that fits its step, with the initial values of the edges |
| TimeTerm.FlowSystem.SetupOnElements | src/flow/darcy_flow_mh.cc:1614-1658 | the setup on elements leaves a system that fits its step |
| TimeTerm.FlowSystem.ModifySystem | src/flow/darcy_flow_mh.cc:1751-1765 | the state after the in-place rescaling and swap is the specified one, with the solution of the step before kept for the postprocessing |
| Assembly.LinSys.AddBoundary | src/flow/darcy_flow_mh.cc:575-605 | each boundary condition adds to the row of its edge exactly its law |
| Assembly.LinSys.AddSide | src/flow/darcy_flow_mh.cc:561-619 | the entries of a side add, for all values of the unknowns, the row of the side, the flux into the edge and out of the element; `DarcyLaw.SideRowIsDarcyLaw` says what the row of the side means |
| Assembly.LinSys.AddLocalMatrix | src/flow/darcy_flow_mh.cc:616-617 | the block of an element adds the local matrix applied to its fluxes |
| Assembly.LinSys.AddNeighbours | src/flow/darcy_flow_mh.cc:631-650 | compatible connections add an exchange that leaves one row as it enters the other |
| Assembly.LinSys.Assemble | src/flow/darcy_flow_mh.cc:525-671 | every row of the assembled system says exactly its balance, for all values of the unknowns |
| DarcyLaw.SideRowIsDarcyLaw | src/flow/darcy_flow_mh.cc:561-619 | in the assembled system the row of a side says that its row of the local matrix, applied to the fluxes, is the head in the element less the head on the edge, with the prescribed pressure on a pressure side |
| DarcyLaw.RestInSides | src/flow/darcy_flow_mh.cc:561-619 | water at rest, of one head everywhere, without fluxes and with boundary conditions that fit it, fulfils the row of every side of every mesh |
| DarcyLaw.RestInElements | src/flow/darcy_flow_mh.cc:618-650 | where nothing is released it fulfils the row of every element, exchange with connected edges at the height of the element included |
| DarcyLaw.RestInEdges | src/flow/darcy_flow_mh.cc:551-650 | and the row of every edge: water at rest solves the assembled system |
| Conservation.ElementConserves | src/flow/darcy_flow_mh.cc:618-650 | in a solved step what enters an element leaves it |
| Conservation.EdgeConserves | src/flow/darcy_flow_mh.cc:551-650 | in a solved step inflow and stored water of every edge are what goes to connected elements of lower dimension |
| Conservation.InnerFluxesCancelIff | src/flow/darcy_flow_mh.cc:1772-1827 | on an inner edge without connections the corrected fluxes cancel exactly when the source shares do |
| Conservation.MassBalance | src/flow/darcy_flow_mh.cc:1772-1827 | flux through the boundary is sources plus release from storage plus exchange on the boundary less source shares of boundary sides, on any mesh |
| Conservation.MassConservedIff | src/flow/darcy_flow_mh.cc:1772-1827 | water is conserved exactly when the source shares on boundary sides sum to zero |
| Conservation.MassConservedWithoutSources | src/flow/darcy_flow_mh.cc:1772-1827 | without sources the boundary flux is the sum over elements of minus measure, storativity and cross-section over the step times the mean pressure change |
| Conservation.FluxConditionHolds | src/flow/darcy_flow_mh.cc:578-605 | after postprocessing the flux of a no-flow, Neumann or Robin side is the prescribed one less the source share |
| Conservation.PressureConditionHoldsIff | src/flow/darcy_flow_mh.cc:580-585 | a step meets a pressure condition on its edge exactly when nothing is stored there or the pressure before the step was the prescribed one |
| Conservation.DataBalance | src/flow/darcy_flow_mh.cc:1772-1827 | the balance of the mesh when the postprocessing reads other data than the assembly did |
| Conservation.DataConservedIff | src/flow/darcy_flow_mh.cc:1772-1827 | with data that change, water is conserved exactly when the change of the storage at the boundary, which depends on the solved pressures, makes up for the source shares |
| Conservation.KnownBoundaryConservesIff | src/flow/darcy_flow_mh.cc:1772-1827 | where each side of the boundary keeps its storage or is held at the pressure it has, as can be told before the step, exactly when the present source shares there sum to zero |
| Conservation.KeptStorageConservesIff | src/flow/darcy_flow_mh.cc:1772-1827 | where elements at the boundary keep cross-section and storativity, exactly when the present source shares there sum to zero |
| FlowExamples.SourceIsLost | src/flow/darcy_flow_mh.cc:1814-1824 | a concrete first step from the initial pressures with a source of which half is lost, on the boundary and on an inner edge |
| FlowExamples.PressureIsMissed | src/flow/darcy_flow_mh.cc:580-585 | a concrete first step from the initial pressures that misses its pressure condition |
| FlowExamples.LateSourceIsLost | src/flow/darcy_flow_mh.cc:375-396 | a concrete first step from the initial pressures whose source has changed since the assembly, and whose water is not conserved |
| FlowExamples.LateStorageFlows | src/flow/darcy_flow_mh.cc:375-396 | a concrete first step from the initial pressures whose storativity has changed since the assembly |
| Postprocessing.LumpedFlow.AddTimeFluxes | src/flow/darcy_flow_mh.cc:1782-1800 | the loop over the sides of an edge adds the stored water of each of them once |
| Postprocessing.LumpedFlow.SubtractShares | src/flow/darcy_flow_mh.cc:1814-1824 | the loop over the sides of an element takes its source share from each of them once |
| Postprocessing.LumpedFlow.Postprocess | src/flow/darcy_flow_mh.cc:1772-1827 | all fluxes are corrected and nothing else changes |
| Postprocessing.PostprocessingKeepsPressures | src/flow/darcy_flow_mh.cc:1772-1827 | no row with storage is changed, also with data that changed, so the next step starts from the solved pressures |
| Postprocessing.RunBalance | src/flow/darcy_flow_mh.cc:375-432 | the balance of every solved step of every run, over the step the governor took and from the pressures that the swap has kept, with data that may change from step to step and connections that may lie on the boundary |
| Postprocessing.RunConservesWaterIff | src/flow/darcy_flow_mh.cc:375-432 | a solved step of a run conserves water exactly when the change of the storage at the boundary makes up for the source shares, and with storage kept or pressure held on the boundary exactly when these sum to zero |
| RowNumbering.Distribution.GetProc | src/la/distribution.cc:164-174 | the linear search finds the one process that owns an index |
| RowNumbering.FromSizes | src/la/distribution.cc:65-80 | the starts are the prefix sums of the local sizes |
| RowNumbering.RowInBlock | src/flow/darcy_flow_mh.cc:1258-1269 | the rows of a process are its sides, its elements, its edges, one after another |
| RowNumbering.UnknownOfRow | src/flow/darcy_flow_mh.cc:1258-1288 | the row of an unknown leads back to it, so rows are one-to-one and below the size |
| RowNumbering.RowOfUnknown | src/flow/darcy_flow_mh.cc:1258-1288 | every row belongs to an unknown of the process that owns the row |
| RowNumbering.SchurRow | src/flow/darcy_flow_mh.cc:1069-1072 | the row arithmetic of the Schur complement inverts the shift |
| RowNumbering.LocalOffsets | src/flow/darcy_flow_mh.cc:1636-1638 | local offsets of elements and edges behind the sides are the rows of the process |
| RowNumbering.RowMaps.ApplyShift | src/flow/darcy_flow_mh.cc:1274-1288 | each known index gets the shift of its process, unknown ones stay |
| RowNumbering.RowMaps.MakeRowNumberings | src/flow/darcy_flow_mh.cc:1249-1294 | the three maps hold the specified rows and the distribution of rows fits them |
| RowNumbering.RowDistribution | src/flow/darcy_flow_mh.cc:1289-1293 | turning chunk ends into sizes, last one first, gives the distribution of rows |
| RowNumbering.RowsInjective | src/flow/darcy_flow_mh.cc:1249-1295 | different sides, elements and edges of the mesh have different rows |
| RowNumbering.RowsCover | src/flow/darcy_flow_mh.cc:1249-1295 | every row up to the size is the row of a side, an element or an edge |
| MhDofHandler.MH_DofHandler.Reinit | src/flow/mh_dofhandler.cc:12-22 | sides are numbered element by element |
| MhDofHandler.SideNumbersDiffer | src/flow/mh_dofhandler.cc:16-21 | the numbers of sides are different and below the number of sides |
| MhDofHandler.SideOfNumber | src/flow/mh_dofhandler.cc:16-21 | every number below it is that of a side |
| MhDofHandler.MH_DofHandler.ScatterIndices | src/flow/darcy_flow_mh.cc:340-356 | the index set lists the rows of sides, elements and edges in this order |
| MhDofHandler.MH_DofHandler.ReadsRows | src/flow/mh_dofhandler.cc:37-50 | what the accessors read after the scatter is the solution in the row that belongs to the side, element or edge |
| MhDofHandler.NumberedRowsApart | src/flow/darcy_flow_mh.cc:551-564 | rows taken from the numbering are distinct as the assembly needs them |
| DofHandler.InBlock | src/fem/dofhandler.cc:310-341 | a cell has its numbers in the block of its process, behind earlier cells |
| DofHandler.Disjoint | src/fem/dofhandler.cc:310-341 | cells have disjoint numbers |
| DofHandler.CountsByProc | src/fem/dofhandler.cc:310-347 | all numbers together are as many as the cells have |
| DofHandler.NumbersTile | src/fem/dofhandler.cc:310-347 | every number of the interval belongs to exactly one cell, and the local interval is that of the own cells |
| DofHandler.DOFHandlerMultiDim.DistributeDofs | src/fem/dofhandler.cc:260-348 | the nested loops fill the table with the specified numbers and set offset, local size and total |
| DofHandler.DOFHandlerMultiDim.GetDofIndices | src/fem/dofhandler.cc:350-366 | hands out the numbers of multiplicity one |
| DofHandler.DOFHandlerMultiDim.AllIndicesIff | src/fem/dofhandler.cc:278-297 | these are all numbers of the cell exactly when its element has no groups |
| DofHandler.PairIsKeptBack | src/fem/dofhandler.cc:350-366 | a concrete element of which three numbers are distributed and one is handed out |
| LocalMatrix.KroneckerFlux | src/flow/mh_fe_values.cc:268-294 | on every side of every triangle each basis function has constant normal flux, one in total on its own side and zero on the others |
| LocalMatrix.PolynomIsProduct | src/flow/mh_fe_values.cc:299-334 | the polynomial is the product of two basis functions under the tensor, in every point |
| LocalMatrix.MidpointMoments | src/flow/mh_fe_values.cc:191-203 | the mean over the midpoints of a product of basis functions is their product in the centre plus second moments |
| Quadrature.MidpointRuleExact | src/flow/mh_fe_values.cc:191-203 | the midpoint rule gives the exact mean of every quadratic polynomial over every triangle, by the integrals of barycentric monomials |
| Quadrature.ValueInCoordinates | src/flow/mh_fe_values.cc:326-334 | the polynomial in barycentric coordinates, whose monomials the mean integrates one by one |
| Quadrature.TriangleEntryIsIntegral | src/flow/mh_fe_values.cc:159-211 | an entry of the local matrix is the integral of the product of its basis functions |
| Quadrature.LineEntryIsIntegral | src/flow/mh_fe_values.cc:129-153 | an entry of the matrix of a line is the integral of the product of the two linear basis functions |
| LocalMatrix.TriangleDefinite | src/flow/mh_fe_values.cc:159-211 | for every proper triangle and positive definite tensor the matrix is symmetric and positive definite |
| LocalMatrix.KroneckerFlux3 | src/flow/mh_fe_values.cc:379-397 | the basis functions of a tetrahedron have unit flux through their own side and none through sides with their node |
| LocalMatrix.PolynomIsProduct3 | src/flow/mh_fe_values.cc:401-448 | the polynomial in space is the product of two basis functions |
| LocalMatrix.IntegralOfProduct | src/flow/mh_fe_values.cc:452-513 | the integral formula for a product of basis functions is the volume times their product in the centre plus second moments |
| Quadrature.IntegralExact | src/flow/mh_fe_values.cc:452-513 | the integral formula is exact for every quadratic polynomial over every tetrahedron |
| Quadrature.TetrahedronEntryIsIntegral | src/flow/mh_fe_values.cc:339-375 | an entry of the matrix of a tetrahedron is the integral of the product of its basis functions |
| LocalMatrix.TetrahedronDefinite | src/flow/mh_fe_values.cc:339-375 | for every proper tetrahedron and positive definite tensor the matrix is symmetric and positive definite |
| LocalMatrix.LineDefinite | src/flow/mh_fe_values.cc:129-153 | the matrix of a line is symmetric and positive definite |
| LocalMatrix.EnergyIsSquares | src/flow/mh_fe_values.cc:190-204 | the energy of fluxes is their mean velocity squared plus their divergence squared, with positive factors |
| LocalMatrix.MHFEValues.LocalMatrixLine | src/flow/mh_fe_values.cc:129-153 | the array holds the matrix of the line |
| LocalMatrix.MHFEValues.LocalMatrixTriangle | src/flow/mh_fe_values.cc:159-211 | the loops fill the array with the matrix of the triangle and keep the basis functions |
| LocalMatrix.MHFEValues.LocalMatrixTetrahedron | src/flow/mh_fe_values.cc:339-375 | the loops fill the array with the matrix of the tetrahedron and keep the basis functions |
| JsonPath.ParseDigits | src/input/json_to_storage.cc:118-132 | printing an index and parsing it gives the index |
| JsonPath.PrintedPathFoundIff | src/input/json_to_storage.cc:98-185 | a reference to the printed path of a node leads to it, from any position, exactly when it is not the root and all keys can be named |
| JsonPath.MovesFollowed | src/input/json_to_storage.cc:98-159 | a relative address of keys, indices and steps up leads where its moves lead one by one, or fails where one of them does |
| JsonPath.UpAndDownFound | src/input/json_to_storage.cc:113-154 | as many steps up as there are levels, then down again, leads to the node there |
| JsonPath.RefToRoot | src/input/json_to_storage.cc:118-128 | where the address of the root leads |
| JsonPath.FollowKeepsGood | src/input/json_to_storage.cc:113-154 | no address leads to a key that cannot be named |
| JsonPath.JSONPath.DownIndex | src/input/json_to_storage.cc:33-43 | goes to the item or stays and says that there is none |
| JsonPath.JSONPath.DownKey | src/input/json_to_storage.cc:46-59 | goes to the value of the key or stays and says that there is none |
| JsonPath.JSONPath.Up | src/input/json_to_storage.cc:62-68 | one level up, the root stays |
| JsonPath.JSONPath.GetRefFromHead | src/input/json_to_storage.cc:76-91 | references are exactly the objects whose only key is REF with a string, and exactly those with another value there are errors |
| JsonPath.JSONPath.FollowPart | src/input/json_to_storage.cc:115-152 | one component of an address, with each of its errors |
| JsonPath.JSONPath.FindRefNode | src/input/json_to_storage.cc:98-159 | the loop over the components ends at the specified node or with the specified error, and remembers the reference |
| JsonPath.JSONPath.Output | src/input/json_to_storage.cc:163-185 | prints the path |
| InputTypes.PrintedIntParsedIff | src/input/type_base.cc:317-327 | a printed integer, behind blanks or a plus too, is read back exactly if it fits into 32 bits and refused otherwise |
| InputTypes.DecimalParsed | src/input/type_base.cc:354-365 | a decimal text with sign, fraction and exponent is read to the number with its digits and the point where it is set |
| InputTypes.NameFound | src/input/type_selection.cc:92-100 | a name is looked up to its value, and refused exactly when no entry has it |
| InputTypes.Table.ChoiceOf | src/input/type_record.cc:516-529 | the name of a descendant is looked up to a descendant of that name |
| Elaborator.FollowingUsesUp | src/input/json_to_storage.cc:106-112 | following a reference leaves fewer references of the document to follow: the first part of the termination measure of the reading |
| Elaborator.ChildSmaller | src/input/json_to_storage.cc:343-360 | going down lowers the height of the node and brings no new references: the second part of the measure |
| Elaborator.ChainReadAtEnd | src/input/json_to_storage.cc:295-304 | reading where a chain of references starts is reading where it ends |
| Elaborator.CycleRefused | src/input/json_to_storage.cc:106-112 | a chain of references that comes to a reference it has followed is refused, whatever is to be read |
| Elaborator.ReadConforms | src/input/json_to_storage.cc:291-600 | whatever is read, from any document with any references, conforms to the declared type |
| Elaborator.DefaultConforms | src/input/json_to_storage.cc:603-677 | whatever a default text gives conforms to the declared type |
| Elaborator.TypeSlot | src/input/json_to_storage.cc:427-460 | slot 0 of a descendant holds the index of the descendant that was chosen |
| Elaborator.NullIffNull | src/input/json_to_storage.cc:307-309 | storage is null exactly when the value, all references followed, is null |
| Meaning.ChainLeadsToTarget | src/input/json_to_storage.cc:98-159 | a chain of references that ends leads to its end: the place whose value counts |
| Meaning.ScalarReadIff | src/input/json_to_storage.cc:502-600 | a scalar gives exactly the storage that says its value, integers after the 32-bit conversion, and is accepted exactly if its kind and its bounds are right |
| Meaning.ReadIff | src/input/json_to_storage.cc:291-600 | reading gives some storage exactly if that conforms to the type and says what the document says, references followed, slot by slot and item by item, defaults where nothing is given |
| Elaborator.NullSlotIff | src/input/json_to_storage.cc:361-382 | a slot is null exactly when its key is given as null, or is absent and has no declared value |
| Elaborator.DefaultIsInput | src/input/json_to_storage.cc:603-677 | storage from a default text is the storage of the JSON value it denotes, through any automatic conversions |
| Elaborator.DefaultDenotes | src/input/json_to_storage.cc:603-677 | every default text that gives storage denotes a JSON value |
| Accessors.ValueFaultsIff | src/input/accessors_impl.hh:200-210 | a read at the declared type fails exactly on null storage |
| Accessors.KeyReadIsSafe | src/input/accessors_impl.hh:20-121 | the slot of a key is there and fits; reading it fails exactly when it is null and the optional read never fails |
| Accessors.ReadThrough | src/input/accessors_impl.hh:200-210 | from the document to the program: a typed read gives the value the document has there, all references followed, and fails exactly where it is null |
| Accessors.ItemReadIsSafe | src/input/accessors_impl.hh:126-148 | iteration meets items of the item type, as many as the size says, within the declared limits |
| Accessors.DescendantIsSafe | src/input/accessors.cc:180-184 | the type of an abstract record is one of its descendants, and the storage fits it |
| Accessors.ObligatoryReadFaultsIff | src/input/accessors_impl.hh:20-45 | reading an obligatory key fails exactly when the document gives null for it |
| Accessors.NullForObligatory | src/input/accessors_impl.hh:20-45 | a concrete document that is read without an error and whose obligatory number cannot be read |
| Accessors.CopyTo | src/input/accessors_impl.hh:151-160 | copies all items; fails exactly when one is null |
| Accessors.Address.Down | src/input/accessors.cc:53-62 | the address below an address is that of the part |
| Accessors.Address.PathUp | src/input/accessors.cc:64-70 | the walk over the parents collects the indices from the last to the first |
| Accessors.Address.MakeFullAddress | src/input/accessors.cc:64-108 | the loop ends, through abstract records too, and prints the path of keys and indices |
| Accessors.AddressIsPath | src/input/accessors.cc:64-108 | when values are read without reference and conversion, the address names the JSON value the part was read from |
| RegionFields.ReadExactlyDue | src/coupling/equation.cc:146-164 | after each call of a nondecreasing sequence exactly the records due at its time have been read |
| RegionFields.FirstCall | src/fields/field_base_impl.hh:244-262 | after the first call a field on a region is what the records read in it ask for: the latest one, else the default, unless the control field, seen as the order of fields and kinds lets it be seen, turns the region off |
| RegionFields.RunIsBatch | src/coupling/equation.cc:146-164 | after every call each region has the latest of all records read, as in one batch, else what the first call left |
| RegionFields.ChangedIff | src/fields/field_base_impl.hh:244-262 | after a later call at a new time a field says that it has changed exactly when a record read in this call has set it somewhere or one of its algorithms depends on time, and otherwise is the same on every region |
| RegionFields.SameTimeSameField | src/fields/field_base_impl.hh:246-248 | a second call for the same time changes no field |
| RegionFields.NeverLost | src/fields/field_base_impl.hh:228-262 | a region that has a field after the first call always has one |
| RegionFields.EmptyIff | src/fields/field_base_impl.hh:300-337 | a region is without field exactly when it was turned off in the first call and no record has set it |
| RegionFields.NeededButEmpty | src/fields/field_base_impl.hh:300-322 | a concrete run after which a needed field is missing |
| RegionFields.EqDataBase.CheckTimes | src/coupling/equation.cc:174-183 | finds the first record whose time decreases or is negative, exactly when there is one |
| RegionFields.EqDataBase.ReadListItem | src/coupling/equation.cc:217-253 | sets exactly the fields of its kind that the record has, on its domain |
| RegionFields.EqDataBase.ReadRecords | src/coupling/equation.cc:146-156 | the loop over the due records ends in the specified state |
| RegionFields.EqDataBase.SetTime | src/coupling/equation.cc:135-164 | boundary and bulk fields are moved to the time in this order, with the specified errors |

## Left out

- Rounding: arithmetic is exact, so a fixed step does not drift; not-a-number results are modelled only where infinities cause them.
- The 32-bit range of the number of steps in `estimate_dt`; the count is an unbounded integer.
- TimeMarks: mark words are sets of bit numbers below 64, not machine words; `add_time_marks`, iterators and output are not modelled.
- TimeGovernor: the constructor with a fixed step and no end (documented as untested) and unsteady governors with an infinite end; a scan for the next mark from an infinite time would run past the vector in the program.
- GovernorRuns.RunFinishes: is stated for fixed times that the tolerant comparison tells apart and for steps above the tolerance at the next mark; `GovernorRuns.EstimatePassesMarkIff` and `GovernorRuns.JumpedIff` say exactly when a single step passes a fixed time without these premises, and `GovernorRuns.GridKept` gives a condition on the input alone under which it holds.
- SequentialCoupling.HC_ExplicitSequential.RunSimulation: is stated for clocks whose fixed times and constraints lie on grids, the transport grid at least twice as fine; transport and output are abstracted to the advance of their clock.
- TimeGovernor: the member `last_time_` and the flag of the coupling loop are uninitialised in the program; the loop is proved for every initial value of the flag.
- Assembly.LinSys.Assemble: runs over the elements of all processes in one list; the zero entries that only reserve space for Schur complements, mortar and intersection couplings, and preallocation are left out.
- Elements, sides and edges keep the fixed arrays of four sides of the program only in that their numbers are arbitrary here.
- The PETSc solvers, Schur complements themselves, and the partitioning that produces the initial numberings; these are premises (an exact solution, a one-to-one numbering).
- Conservation.MassConservedIff: is stated for meshes whose connections of lower dimension are not on boundary edges; `Conservation.MassBalance` and `Postprocessing.RunBalance` have the general formula.
- Conservation.PressureConditionHoldsIff: is stated for a time term other than one, which data that are not negative have (`Conservation.CoefficientNotPositive`).
- FlowExamples: the examples are first steps from the initial pressures, not whole runs.
- LocalMatrix: the transformation of a triangle into its plane, measures, normals and, in `DarcyLaw`, heights are data; the inverse of the local matrix is not modelled.
- Quadrature.MidpointRuleExact: the integral of a barycentric monomial is the formula of Dirichlet; integrals of other functions are not defined.
- DofHandler: the table of counts per object dimension is indexed within its bounds (the program declares one row too few); degrees of freedom on faces, edges and vertices are not distributed by the program either.
- JsonPath: indices in addresses are unbounded integers; the json_spirit grammar is not modelled, documents start parsed.
- Elaborator.ReadConforms: assumes a complete type table with well-founded automatic conversion, descendants with different names that start with the key TYPE; lazy completion of types and hashing of names are not modelled.
- RegionFields.ChangedIff: is stated for calls after the first, in which filling in defaults sets the flag, too.
- InputTypes.DecimalParsed: is stated for texts with both a fraction and an exponent; shorter forms go through the same function, other number formats are left out.
- InputTypes.PrintedIntParsedIff: covers what is printed; the reading takes decimal digits with sign and leading blanks, leading zeros included, as the stream does; locale and other number formats are left out.
- Storage is a value; the slots of the storage arrays, filled once in the program, and deep copies are not modelled as objects.
- Accessors.AddressIsPath: parts that come from defaults have no JSON value and are outside the statement.
- RegionFields: a control field whose table is still empty counts as not constant, where the program reads beyond a vector; the algorithms of fields are opaque except for constant selections; regions of a record are known regions; on an error the state is not described, the program ends.
- Multi-fields, output writers, logging, the command line, documentation of types, Python scripts and build files.
