# SmartGridLab: verified model of the power network calculations

SmartGridLab simulates DC power networks. A grid is split into connected components; the loads
of each component are balanced; the switch interfaces of a component form a resistive network
whose voltages are computed either on one machine or by a master and several slave servers; and
several hosts can be joined into one network by a coordinator that only ever sees their boundary
interfaces. This project models these calculations over exact real numbers and proves that the
distributed, cached and federated forms give the answers of the simple one.

How the files fit together:

- `Sums`, `LinearAlgebra`, `Laplacian`, `Woodbury`, `Gsl`: vectors and matrices as functions,
  Gaussian elimination, the kernel of a grounded Laplacian, the algebra of the two phases, and the
  numerical library's operations on arrays. Inverse and solution are computed by elimination, and
  proved to exist wherever the program asks for them.
- `Sequences`, `Connections`: what several parts share.
- `Grids`, `Topology`: nodes, flag bits, power lines, adjacency lists, coloured depth-first search.
- `LoadBalancing`, `Balancing`, `Injections`: sharing of currents, the loops that store them, and
  what they inject at each switch interface.
- `Networks`, `Assembly`, `Simulation`: the matrices of one component, the loops that fill them,
  and a whole run of `simulate`.
- `PowerSlave`, `Messages`, `Distribution`, `ConnectedComponent`, `StaleUpdate`, `StaleLaw`: the slave, the
  messages as lists of tokens, the two phases, the direct calculation, both cached updates, an update
  that goes wrong, and the law of what drops to zero where lines to other servers end.
- `Registry`, `BoundaryArrays`, `Coordinator`: what the coordinator knows as a value, its growing and
  shrinking arrays and index maps, and the object that ties the two together in `Valid()`, with a
  log of all it has been told.
- `Reconstruction`, `HostRun`, `Handshake`, `Leftover`, `Federation`, `FederatedEnergy`, `FederatedRun`: the host's side of
  a federation from the matrix that `simulate` has filled to the message it sends and the updates
  that follow, and the proofs that coordinated answers are those of the interconnected network.
- `SmallHosts`, `Cancellation`: two small hosts, and a federation of them that a third one leaves.
- `Dispatcher`, `Tlv`: the coordinator's queue of requests, and the GUI's TLV codec.

A vector or matrix is a total function; `Contents` and `MatrixContents` read an array as one, and a
theorem about `n` rows says nothing about the other ones. Grounding means that the last index is
left out: its voltage is zero and its equation is not solved.

Where the code does not do what one would expect of it, the model does what the code does, and a
lemma says exactly when the expected property holds:

- A cached update sends no zeros and the slaves do not clear what they hold. The update is right if
  and only if what the slaves end up with is what a fresh calculation would have sent
  (`DistributedUpdate`). After a fresh calculation, and when no injection drops to zero where a line
  to another server ends, that is the case if and only if no injection has dropped to zero and
  nothing that the second phase sends has (`UpdateFreshIff`). A drop at an interface without such a
  line always makes it wrong (`DropMakesWrong`), as it does in a row of four interfaces on two
  servers (`StaleUpdateFails`). Wherever injections drop, what the second phase sends is right if and
  only if the voltages that the stale injections alone would cause sum to 0 over the two ends of every
  line between servers (`SentFreshIff`, and `HeldFreshIff` for what the servers end up with); that is
  never so when something drops at such an end and all that drops had one sign (`OneSignIsWrong`).
- A standing storage writes 0 over what other appliances at the same switch interface have injected.
  The stored value is right if and only if no standing storage comes last or the net current is
  zero (`StoredIsNet`); a grid with a plant and a storage on two lines of one switch interface loses
  the plant's current (`StandingStorageOverwrites`). Kirchhoff's current law holds for what a run has
  stored exactly where this does not happen (`CurrentLawIff`).
- The partners in a registration message belong to the right interfaces if and only if all dynamic
  connections of the host came in one batch (`BatchesAligned`, `SecondBatchMisaligned`).
- The coordinator looks up every partner of a leaving host without a check. A host that could leave
  before another host left still can if and only if none of its ties went to that host
  (`CanLeaveAfter`, `PartnerGone`).
- A cancellation forgets what the hosts have sent. The voltages that the coordinator holds belong to
  the interconnected network if and only if what every host has sent since the last cancellation
  is up to date (`CoordinatedIsMonolithic`); right after a cancellation, if and only if no host has
  anything to send (`AfterCancellation`). In a run of two tied hosts a third one joins and leaves, and
  right voltages have become wrong ones (`CancellationForgets`).
- A host's first back substitution subtracts A1B VB from its injections in place, and later updates only
  refill the rows of interfaces with an appliance. A boundary update that follows at once is right if
  and only if there was nothing to subtract (`BoundaryUpdateAfterCalculation`); after a load update, if
  and only if there was nothing to subtract from rows without an appliance, and the corrections
  sent are short of exactly what is missing there, then and ever after (`LoadUpdate`,
  `LoadUpdateAfterCalculation`, `ShortVoltages`, `ShortSent`). A host with one boundary interface is safe (`OneInterfaceLeavesNothing`), one with two
  need not be (`SubtractedTwice`). The results on whole federations are about the injections that the
  hosts' networks have, not about what is left in I.
- A distributed calculation leaves A + N y_L N' in A. A host that has calculated so before it registers
  still holds its network if and only if none of its lines joins two servers (`CutLeavesNetwork`).
- A flag that is set while it is true is lost, be it that nobody has tested it since, or that the
  dispatcher has tested and not yet cleared it. Every set pays for a dispatch if and only if there
  is none of these (`EverySetPaysIff`, `LostInWindow`, `LostBeforeTest`).
- A string TLV of type 6 is padded twice by the parser, 65536 bytes of data yield a header with
  length 0, longer data is cut off, and no TLV is built for empty data. Whatever the default values,
  one TLV comes back exactly as it was sent if and only if it is none of these, or is empty where
  the default is the empty string (`SingleExactIff`). A TLV of an unknown type is skipped without its
  padding, so what follows is found if and only if there is none (`UnknownSkipped`, `UnknownHidesNext`).
- A share of a total of zero is not a number; it is modelled by a current or a share that is not there.
  Sharing over hosts and then over appliances gives an appliance what sharing over all appliances would
  give it if and only if its host does not divide by a total of zero where the others do not
  (`TwoLevelIsFlat`, `CoordinatedSharingIsFlat`).
- The row of the grounded interface is satisfied as well if and only if the injections sum to zero
  (`DroppedRowHolds`, `DroppedRowNeedsBalance`), which balancing guarantees (`BalancedInjections`).

## Model

| member | source | states |
|---|---|---|
| Grids.PiNeighbors | powersimulation/node.h:37-65 | the loop finds exactly the interfaces that the node joins to the given one |
| Grids.InNeighborsWithin | powersimulation/node.h:68-187 | two interfaces of a node are neighbours if and only if the flag bit of the pair is set |
| Grids.AdjacentIff | powersimulation/power_simulator.cpp:166-191 | two interfaces are adjacent if and only if their node joins them or a power line runs between them |
| Grids.AdjacentByFlagOrLine | powersimulation/node.h:87-187 | in terms of the file format: a line has the two interfaces at its ends, or they belong to one node and bit (i-1)(12-i)/2+j-i-1 of its nonnegative flag is set for their indices i < j among 1 to 6 |
| Grids.FlagJoins | powersimulation/node.h:87-187 | a flag that is the binary number of a choice among the 15 pairs joins exactly the chosen pairs |
| Grids.AdjacencySymmetric | powersimulation/power_line.h:24-42 | adjacency is symmetric, and no interface is adjacent to itself |
| Grids.LineBetweenFound | powersimulation/power_simulator.cpp:292-301 | a line is found if and only if there is one, and it is the same one from both ends |
| Grids.LineBetweenIsLast | powersimulation/power_simulator.cpp:292-301 | of several lines between two interfaces it is the last in the order, and none only if no line has both at its ends |
| Topology.PowerSimulator.CreateAdjList | powersimulation/power_simulator.cpp:166-191 | every interface gets its adjacency list: exactly those that a line or the bit of their pair in the flag of their node joins to it; the lists are symmetric and closed |
| Topology.PowerSimulator.DfsVisit | powersimulation/power_simulator.cpp:194-212 | exactly the interfaces reached through white ones turn black; the white ones are the termination measure |
| Topology.PowerSimulator.FindConnectedComponents | powersimulation/power_simulator.cpp:214-238 | the components partition all interfaces, and two interfaces share one if and only if a path connects them |
| Topology.PowerSimulator.CollectBlackOnes | powersimulation/power_simulator.cpp:221-236 | the black interfaces are taken out in order and turned green, and no other changes |
| Topology.PowerSimulator.FindComponent | powersimulation/power_simulator.cpp:487-495 | the first component with the interface, or -1 if none has it |
| Topology.VisitIsClass | powersimulation/power_simulator.cpp:194-238 | a search from a white interface reaches its whole class: no path leads into components collected earlier |
| LoadBalancing.Conserved | powersimulation/connected_component.cpp:387-466 | what is supplied equals what is drawn, and both equal the smaller desired total |
| LoadBalancing.ShareBounded | powersimulation/connected_component.cpp:391-457 | no share exceeds what was desired or is negative, the scarce side is served in full, standing storages get 0 |
| LoadBalancing.TwoLevelIsFlat | coordinator/coordinator.cpp:42-98 | splitting over hosts and then over appliances gives what balancing the union of all hosts gives, numbers or not, if and only if the host does not divide by 0 where the union does not |
| LoadBalancing.HostShareIs | coordinator/coordinator.cpp:42-98 | the scarce side of a host is given what it desires, the other side as much of the scarce total as it desires of its own; no number if that is 0 |
| LoadBalancing.SharesBalance | coordinator/coordinator.cpp:42-98 | unless it divides by 0 the coordinator gives away as much supply as demand, the smaller of the two totals over all hosts |
| Balancing.CurrentState.FindPowerLine | powersimulation/power_simulator.cpp:292-301 | the loop returns the last line with both interfaces at its ends |
| Balancing.CurrentState.FindAppPowerLine | powersimulation/power_simulator.cpp:272-290 | the loop returns the line that is the last to end at the appliance's first interface, and nothing only if no line ends there |
| Balancing.ApplianceLineIsLast | powersimulation/power_simulator.cpp:272-290 | by the ends of the lines and their order: the line of an appliance ends at its first interface and no later one does |
| Balancing.CurrentState.UpdateAppliance | powersimulation/power_simulator.cpp:252-271 | an appliance's current and that of its line are set, nothing else changes, and the result says whether a line was found |
| Balancing.CurrentState.DesiredTotals | powersimulation/connected_component.cpp:360-386 | the sums of the desired currents of suppliers and of demanders, with storages by their mode |
| Balancing.CurrentState.Distribute | powersimulation/connected_component.cpp:391-457 | every appliance of the component holds its portion, no number where it divides by 0, and so does its line; every other node and line what it held |
| Balancing.CurrentState.LoadBalancing | powersimulation/connected_component.cpp:353-466 | by role and mode, on the currents left: the scarce side has what it desires, the other side its proportional part, standing storages 0; unless divided by 0, what wind turbines, solar panels, power plants and discharging storages carry equals what demanders and charging storages carry, the smaller of the two desired sums; a line used by one appliance carries its current; everything else is unchanged |
| Balancing.CurrentState.CoordinatedBalancing | powersimulation/connected_component.cpp:558-628 | all appliances hold the host's split of the coordinator's share, no number where it divides by 0 or was sent none, and every other node what it held |
| Injections.StoredValue | powersimulation/connected_component.cpp:161-203 | what the neighbour loop leaves in I: nothing new, 0 after a standing storage, or the net current |
| Injections.NetByRole | powersimulation/connected_component.cpp:175-203 | the net current of an interface is the currents of wired wind turbines, solar panels, power plants and discharging storages less those of demanders and charging storages |
| Injections.EndsStandingIff | powersimulation/connected_component.cpp:187-203 | what is overwritten: a standing storage comes last, with nothing but switches and tunnels after it |
| Injections.StoredIsNet | powersimulation/connected_component.cpp:187-201 | the stored injection is the net current if and only if no standing storage overwrote it or the net current is 0 |
| Injections.StandingStorageOverwrites | powersimulation/connected_component.cpp:200-202 | at a switch interface of a valid grid with one line to a plant and one to a standing storage the plant's current is lost |
| Injections.OneApplianceIsStored | powersimulation/connected_component.cpp:161-203 | with at most one appliance per switch interface nothing is lost |
| Injections.InjectionTotal | powersimulation/connected_component.cpp:161-203 | all injections together are what all appliances of the component inject together |
| Injections.BalancedInjections | powersimulation/connected_component.cpp:65-203 | after balancing the injections of a component sum to zero |
| Injections.GroundedRowHolds | powersimulation/connected_component.cpp:1160-1169 | after balancing a solution of the grounded equations satisfies the dropped last one too |
| Laplacians.QuadIsLoss | powersimulation/connected_component.cpp:161-267 | twice x'Ax is the sum over all pairs of conductance times squared voltage difference |
| Laplacians.GroundedPositiveDefinite | powersimulation/connected_component.cpp:1160-1169 | the grounded Laplacian of a connected network is positive definite |
| Laplacians.GroundedNonsingular | powersimulation/connected_component.cpp:1160-1167 | the grounded Laplacian of a connected network is nonsingular |
| Laplacians.PartNonsingular | powersimulation/connected_component.cpp:918-938 | so is every smaller part of it, such as a host's interior |
| Laplacians.DroppedRowHolds | powersimulation/connected_component.cpp:1168-1169 | injections that sum to zero make the dropped row hold |
| Laplacians.DroppedRowNeedsBalance | powersimulation/connected_component.cpp:1168-1169 | the dropped row holds only for injections that sum to zero |
| LinearAlgebra.GaussSolves | powersimulation/connected_component.cpp:1165-1167 | elimination with row exchange solves every nonsingular system |
| LinearAlgebra.InverseExists | powersimulation/connected_component.cpp:1165-1166 | every nonsingular matrix has the inverse that elimination computes |
| LinearAlgebra.RegularIffNonsingular | coordinator/coordinator.cpp:337-344 | elimination finds a pivot in every column if and only if the matrix is nonsingular |
| Networks.ConductancesAreLaplacian | powersimulation/connected_component.cpp:205-267 | the matrix is symmetric, with nonpositive off-diagonal entries and zero row sums |
| Networks.PathLinks | powersimulation/connected_component.cpp:161-260 | leaves can be cut out of every path, so the switch interfaces stay connected without the appliances |
| Networks.NetworkNonsingular | powersimulation/connected_component.cpp:1160-1169 | the grounded matrix of every component is nonsingular and positive definite |
| Networks.CutIsBlockDiagonal | powersimulation/connected_component.cpp:1204-1215 | A + N y_L N' is zero outside the servers' ranges, so sending only the diagonal blocks loses nothing |
| Networks.EdgeOfPair | powersimulation/connected_component.cpp:230-245 | an edging line with two interfaces at its ends is the line between exactly these |
| Assembly.GroupByServer | powersimulation/connected_component.cpp:67-126 | the groups hold the switch interfaces whose nodes are at each location, no location twice, locations in the order in which they are met and interfaces in that of the component; switch_pi counts them all |
| Assembly.NumberInterfaces | powersimulation/connected_component.cpp:132-148 | the index maps are inverse to each other, indices follow the groups, and each server's range is that of its group |
| Assembly.OrderIsSwitches | powersimulation/connected_component.cpp:67-148 | the numbered interfaces are exactly the switch interfaces of the component, each once |
| Assembly.RangesFit | powersimulation/connected_component.cpp:145-146 | the ranges are not empty, follow one another and tile all indices |
| Assembly.RangesServe | powersimulation/connected_component.cpp:132-148 | two interfaces are on one server if and only if they are in one range |
| Assembly.GroundedBlocks | powersimulation/connected_component.cpp:1241-1256 | taking the grounded index off the last range leaves the matrix block diagonal |
| Assembly.AddNeighbor | powersimulation/connected_component.cpp:174-256 | one neighbour adds its coupling, its injection and its line, and touches no other row |
| Assembly.FillRows | powersimulation/connected_component.cpp:161-260 | A holds the couplings, I the accumulated injections, and the two line lists every line found, once each |
| Assembly.FillDiagonal | powersimulation/connected_component.cpp:261-267 | each diagonal entry becomes minus the sum of its row |
| Assembly.CollectsEdging | powersimulation/connected_component.cpp:230-245 | the lines collected across servers are exactly those between coupled interfaces of different servers |
| Assembly.FillLineConductances | powersimulation/connected_component.cpp:281-287 | y_L is the diagonal matrix of the conductances of the edging lines, all positive |
| Assembly.FillIncidence | powersimulation/connected_component.cpp:290-303 | N has a 1 at both ends of every edging line and nothing else |
| Simulations.FoundComponents | powersimulation/power_simulator.cpp:214-248 | every component the search finds meets what simulate relies on |
| Simulations.ComponentIsNetwork | powersimulation/connected_component.cpp:62-148 | a numbered component is a network that stays connected without its appliances |
| Simulations.FillMatrices | powersimulation/connected_component.cpp:161-267 | A and I hold the conductances and injections of the network, and both line lists are complete |
| Simulations.Calculate | powersimulation/connected_component.cpp:271-344 | direct or distributed, the voltages are the only solution of the network's grounded equations |
| Simulations.UpdateLineCurrents | powersimulation/connected_component.cpp:310-336 | every transmission line carries the voltage difference of its ends over its resistance, other lines what they carried |
| Simulations.Simulate | powersimulation/connected_component.cpp:62-348 | a whole run: balanced by role and mode; interfaces numbered location by location; the only voltages that solve the network; the listed lines are the lines between interfaces of different switches; each carries voltage difference over resistance; and Kirchhoff's current law in terms of line currents, voltage differences inside switches and the currents of the appliances, at every interface but the last exactly unless a standing storage wiped out an injection, and at every interface with one appliance each |
| Simulations.FlowsBalance | powersimulation/connected_component.cpp:261-267 | in a solution the currents leaving an interface sum to its injection |
| Simulations.KirchhoffEverywhere | powersimulation/connected_component.cpp:62-348 | what simulate computes satisfies Kirchhoff's current law at every switch interface, the grounded one included |
| Simulations.TransmissionLines | powersimulation/connected_component.cpp:212-228 | the list holds, once each, exactly the lines that are the last between two switch interfaces of different switches |
| Simulations.OhmAtEnds | powersimulation/connected_component.cpp:310-336 | current times resistance of every listed line is the voltage at its beginning less that at its end |
| Simulations.OutflowIsLeaving | powersimulation/connected_component.cpp:205-267 | line currents out, less line currents in, plus voltage differences to the interfaces joined by the switch, are what the couplings of A let leave: 1 inside a switch, 1/resistance along a line |
| Simulations.CurrentLawIff | powersimulation/connected_component.cpp:161-344 | at every interface but the grounded one the current law holds if and only if no standing storage comes last or nothing is injected anyway |
| Simulations.CurrentLawEverywhere | powersimulation/connected_component.cpp:62-348 | with one appliance per switch interface the current law holds for what is stored, also at the grounded interface |
| PowerSlaves.PowerSlave.constructor | powerslave/Power_slave.h:43-130 | a slave holds the inverse of the block it was sent, N'Y_b^-1, and the injections it was sent |
| PowerSlaves.PowerSlave.ExecuteFirstPhase | powerslave/Power_slave.h:159-248 | the reply sums up to N'Y_b^-1 N and N'Y_b^-1 I |
| PowerSlaves.PowerSlave.UpdateFirstPhase | powerslave/Power_slave.h:279-325 | sent injections replace old ones, unsent ones stay, and the reply is N'Y_b^-1 I of the mixture |
| PowerSlaves.PowerSlave.SecondPhase | powerslave/Power_slave.h:131-157 | the answer is Y_b^-1 applied to what was sent, zero where nothing was sent |
| PowerSlaves.PowerSlave.UpdateSecondPhase | powerslave/Power_slave.h:327-370 | the answer is Y_b^-1 applied to the old vector overwritten by what was sent |
| Messages.RequestFirstPhase | powersimulation/connected_component.cpp:1241-1323 | the slave sent one range holds that range's blocks and the inverse, and its reply sums up to N'Y_b^-1 N and N'Y_b^-1 I of the range |
| Distribution.AddCutTerm | powersimulation/connected_component.cpp:1204-1215 | A becomes A + N y_L N' on the grounded part |
| Distribution.CollectFirstPhase | powersimulation/connected_component.cpp:1225-1323 | after all servers answered the master holds y_L^-1 minus N'Y_b^-1 N and minus N'Y_b^-1 I |
| Distribution.CollectSecondPhase | powersimulation/connected_component.cpp:1342-1377 | the assembled vector is each server's inverse applied to its part of the right-hand side |
| Distribution.UpdateFirstPhase | powersimulation/connected_component.cpp:753-822 | the master's sums are those of the injections the slaves now hold |
| Distribution.UpdateSecondPhase | powersimulation/connected_component.cpp:830-862 | the assembled vector answers the right-hand side the slaves now hold |
| Woodbury.ApplyCutMatrix | powersimulation/connected_component.cpp:1204-1215 | multiplying by Y_b is multiplying by A plus the flow through the cut lines |
| Woodbury.FlowBalance | powersimulation/connected_component.cpp:1260-1323 | the sums received from all servers are N'U of the whole assembled answer plus what i_L adds |
| Woodbury.LineCurrents | powersimulation/connected_component.cpp:1325-1334 | the master's i_L is -y_L N'U for the assembled answer U, the currents of the cut lines |
| Woodbury.TwoPhaseSolves | powersimulation/connected_component.cpp:1197-1374 | the assembled answers solve the network before its lines were cut, for any number of servers and edging lines |
| Woodbury.CutNonsingular | powersimulation/connected_component.cpp:1204-1222 | Y_b is nonsingular |
| Woodbury.BlockNonsingular | powerslave/Power_slave.h:159-200 | each server's block is nonsingular |
| Woodbury.MasterNonsingular | powersimulation/connected_component.cpp:1325-1332 | y_L^-1 - N'Y_b^-1 N is nonsingular |
| ConnectedComponents.ConnectedComponent.LocalCalculation | powersimulation/connected_component.cpp:1154-1196 | the direct calculation returns the only solution and keeps the inverse |
| ConnectedComponents.ConnectedComponent.LocalUpdate | powersimulation/connected_component.cpp:712-730 | the kept inverse gives the only solution for new injections |
| ConnectedComponents.ConnectedComponent.FirstPhase | powersimulation/connected_component.cpp:1197-1332 | slaves and master are left with the inverses of their parts |
| ConnectedComponents.ConnectedComponent.DistributedCalculation | powersimulation/connected_component.cpp:1197-1374 | the distributed calculation returns the only solution of the original network, and leaves the slaves with the fresh inputs |
| ConnectedComponents.ConnectedComponent.DistributedUpdate | powersimulation/connected_component.cpp:753-862 | the cached update solves the network if and only if the slaves end up with what a fresh calculation would send; after a fresh calculation, with no drop where an edging line ends, if and only if nothing has dropped to 0 |
| ConnectedComponents.UpdateCorrectIff | powersimulation/connected_component.cpp:753-862 | the servers' answers solve the network if and only if their input is that of a fresh calculation |
| ConnectedComponents.UpdateIsFresh | powersimulation/connected_component.cpp:775-849 | without an entry that drops to zero an update sends what a fresh calculation would |
| ConnectedComponents.DropMakesWrong | powersimulation/connected_component.cpp:775-780 | after a fresh calculation an injection that drops to 0 at an interface without an edging line always leaves the slave with a wrong input |
| ConnectedComponents.UpdateFreshIff | powersimulation/connected_component.cpp:775-849 | after a fresh calculation, with no drop where an edging line ends, the update is right if and only if no injection has dropped to 0 and nothing sent in the second phase has |
| StaleLaws.SentFreshIff | powersimulation/connected_component.cpp:775-849 | whatever drops to 0, an update sends what a fresh calculation would if and only if the voltages that the stale injections alone would cause in the original network sum to 0 over the ends of every edging line |
| StaleLaws.HeldFreshIff | powersimulation/connected_component.cpp:830-849 | unless it sends a 0 where an edging line ends, the servers end up with the right input if and only if what is sent is right and nothing sent has dropped to 0 |
| StaleLaws.NoNegativeVoltage | powersimulation/connected_component.cpp:1160-1169 | injections that are nowhere negative cause no negative voltage in a grounded network, and a positive one where they are positive |
| StaleLaws.OneSignIsWrong | powersimulation/connected_component.cpp:775-849 | injections of one sign that drop to 0, one of them where an edging line ends, make the update send something wrong |
| StaleUpdates.StaleUpdateFails | powersimulation/connected_component.cpp:753-862 | a run over two servers and one edging line, with an injection of 5 that drops to 0, returns voltages that do not solve the network |
| Registries.RegisterKeeps | coordinator/coordinator.cpp:149-304 | a registration keeps ranges tiling the indices, identifiers distinct and ties mutual |
| Registries.LoadUpdateKeeps | coordinator/coordinator.cpp:24-40 | so does a load update |
| Registries.CancelKeeps | coordinator/coordinator.cpp:671-810 | so does a cancellation |
| Coordinators.EntryByName | coordinator/coordinator.cpp:247-299 | in every valid state an entry of YBB is what the names of the two interfaces say (original diagonal entry and one more for a registered partner, -1 for partners, 0 otherwise) less their host's deltaX for the pair |
| Registries.MembersDetermineMatrix | coordinator/coordinator.cpp:172-304 | the boundary matrix depends only on the registered hosts, up to the numbering |
| Registries.RunsAgree | coordinator/coordinator.cpp:686-759 | two runs of registrations, load updates and cancellations that end with the same hosts end with the same matrix |
| Registries.RegisterThenCancel | coordinator/coordinator.cpp:671-810 | registering a host beside others and cancelling it gives back the same registry |
| Registries.CanLeaveAfter | coordinator/coordinator.cpp:688-700 | a host can still leave after another one if and only if it had no tie to that one |
| Registries.PartnerGone | coordinator/coordinator.cpp:688-700 | a run of two tied hosts after which the second one cannot leave |
| Registries.ReachedIsConsistent | coordinator/coordinator.cpp:3-812 | every reachable registry has tiling ranges, distinct identifiers and mutual ties |
| Registries.TotalUpdate | coordinator/coordinator.cpp:24-40 | the total over all hosts changes by the new load minus the old one |
| BoundaryArrays.Grown | coordinator/coordinator.cpp:188-208 | the grown matrix has the old entries and zeros |
| BoundaryArrays.RegisterLines | coordinator/coordinator.cpp:209-268 | after the loop the matrix holds the ties of all lines and both index maps cover them |
| BoundaryArrays.SubtractDelta | coordinator/coordinator.cpp:288-302 | deltaX is subtracted from the new block and from nothing else |
| BoundaryArrays.DropTies | coordinator/coordinator.cpp:686-700 | each partner of a leaving interface loses one on its diagonal |
| BoundaryArrays.Contracted | coordinator/coordinator.cpp:731-752 | the contracted matrix is the old one without the host's rows and columns |
| BoundaryArrays.CancelMaps | coordinator/coordinator.cpp:770-803 | both index maps describe the remaining interfaces, moved up |
| Coordinators.Coordinator.LoadUpdate | coordinator/coordinator.cpp:3-98 | totals are the sums over all hosts, every host holds its proportional share, no number where the total is 0, and the log grows by the message |
| Coordinators.Coordinator.Coordinate | coordinator/coordinator.cpp:149-426 | the state is that of the registry with the new host, IB is extended by -deltaY, VB solves the boundary equations, and every host is told its voltages and, for each tie, the voltage at the partner less its own, or nothing for a single interface |
| Coordinators.Coordinator.CoordinateUpdate | coordinator/coordinator.cpp:446-612 | only the host's part of IB changes, nothing for a host that has not registered; VB solves the boundary equations anew and every host is told its voltages and the currents that enter through its ties; a single interface is told 0 if its host is alone |
| Coordinators.VoltagesTold | coordinator/coordinator.cpp:355-378 | every host is told the voltages of its boundary interfaces in the order of its registration |
| Coordinators.TiesTold | coordinator/coordinator.cpp:369-376 | the current told for a tied interface is the voltage at its partner less its own, 0 without a registered partner |
| Coordinators.Coordinator.UnRegisterRequest | coordinator/coordinator.cpp:649-812 | the state is that of the registry without the host, shares are current, IB is zero and VB solves for it; an unknown host changes nothing |
| Coordinators.SolveBoundary | coordinator/coordinator.cpp:323-345 | VB solves the boundary equations without the last one if the matrix can be inverted, and is unchanged otherwise |
| Coordinators.SameHostsSameMatrix | coordinator/coordinator.cpp:172-304 | two coordinators with the same hosts hold the same YBB, interface by interface |
| Coordinators.JoinAndLeave | coordinator/coordinator.cpp:3-812 | joining beside others and leaving restores YBB, both index maps, all other ranges and the desired totals |
| Reconstructions.OneBatchAligned | powersimulation/connected_component.cpp:1415-1424 | after one batch the boundary set runs against the connections |
| Reconstructions.BatchesAligned | powersimulation/connected_component.cpp:1415-1543 | after any number of batches it does if and only if at most one was not empty |
| Reconstructions.SecondBatchMisaligned | powersimulation/connected_component.cpp:1415-1543 | two batches of one connection each give every interface the other one's partner |
| Reconstructions.PartnersMatch | powersimulation/connected_component.cpp:984-992 | the message names the right partners if and only if the boundary set runs against the connections |
| Reconstructions.DynamicComponent.AddDynamicConnection | powersimulation/connected_component.cpp:1415-1424 | a new connection is put in front |
| Reconstructions.DynamicComponent.MoveToEnd | powersimulation/connected_component.cpp:1500-1540 | one interface goes to the front of the boundary set; A, B and I are the same by interface name and both maps stay inverse |
| Reconstructions.DynamicComponent.DynamicReconstruct | powersimulation/connected_component.cpp:1486-1543 | all boundary interfaces are at the end in order, and A, B and I are the same by interface name |
| Reconstructions.DynamicComponent.Eliminate | powersimulation/connected_component.cpp:897-956 | the interior of a connected network with a boundary interface is inverted, and deltaX and deltaY are its Schur complement terms |
| Reconstructions.DynamicComponent.RegistrationLines | powersimulation/connected_component.cpp:984-998 | what is sent for each boundary interface: its diagonal entry, and as partner the host and interface of a connection, read in reverse order |
| Reconstructions.DynamicComponent.UpdatedCorrections | powersimulation/connected_component.cpp:1684-1691 | what a load update sends is DeltaY of the injections that I holds |
| Reconstructions.DynamicComponent.Substitute | powersimulation/connected_component.cpp:1106-1117 | back substitution returns all voltages of the host and uses up the interior part of I |
| Reconstructions.DynamicComponent.DynamicCoordinatedBoundaryUpdate | powersimulation/connected_component.cpp:1882-1895 | the same voltages, with I left alone |
| HostRuns.SimulatedHolds | powersimulation/connected_component.cpp:132-267 | the matrices that simulate fills are the network that its maps number |
| HostRuns.ReconstructionHolds | powersimulation/connected_component.cpp:1486-1543 | after the reconstruction A and I hold the same network under its new numbering |
| HostRuns.HeldConducts | powersimulation/connected_component.cpp:161-267 | what A holds is a Laplacian in which all switch interfaces are linked |
| HostRuns.MessageDescribes | powersimulation/connected_component.cpp:897-1000 | what reconstruction, elimination and message leave behind is all that the federation theorems assume of a host, for boundary interfaces that are apart and inject nothing |
| HostRuns.RegisterHost | powersimulation/connected_component.cpp:897-1000 | reconstruction, elimination and message in one run: the message describes the host's network, which is connected and conducting, and every line names its interface and the other end of a connection |
| Handshakes.NamesMeet | powersimulation/connected_component.cpp:990-998 | if two hosts that came with one batch each connect an interface of each other, each registers as partner the identifier of the other's line |
| Handshakes.InterfacesAreTied | coordinator/coordinator.cpp:205-262 | once both have registered, the boundary matrix holds -1 for the two interfaces in both directions and one more on both diagonals; before that, neither |
| HostRuns.CutLeavesNetwork | powersimulation/connected_component.cpp:1204-1215 | what a distributed calculation leaves in A is still the host's network if and only if no line joins two servers |
| Leftovers.RefillInjections | powersimulation/connected_component.cpp:1638-1682 | rows of interfaces with an appliance get the new injection, all others keep what is in I |
| Leftovers.BoundaryUpdateAfterCalculation | powersimulation/connected_component.cpp:1106-1113 | a boundary update right after the calculation is right if and only if the calculation had nothing to subtract |
| Leftovers.LoadUpdate | powersimulation/connected_component.cpp:1638-1895 | every load update: the corrections sent are short of the share of what is missing in rows without an appliance, the boundary update that follows is right if and only if nothing is missing there, and it stays missing |
| Leftovers.LoadUpdateAfterCalculation | powersimulation/connected_component.cpp:1106-1895 | the first load update after a calculation: what is missing there is what the calculation has subtracted |
| Leftovers.ShortVoltages | powersimulation/connected_component.cpp:1882-1895 | with something missing from the injections back substitution is right if and only if nothing is missing in the interior |
| Leftovers.ShortSent | powersimulation/connected_component.cpp:1684-1691 | with no row refilled the corrections sent are right if and only if the calculation had nothing to subtract |
| Leftovers.OneInterfaceLeavesNothing | powersimulation/connected_component.cpp:1106-1108 | nothing is left by a host with one boundary interface, whose voltage is 0 |
| Leftovers.SubtractedTwice | powersimulation/connected_component.cpp:1106-1895 | a host with two boundary interfaces that computes 2.5 for voltages 5 and 0, and 5 when it is told the same once more |
| Federations.InteriorRow | powersimulation/connected_component.cpp:1106-1113 | back substitution satisfies the host's interior rows |
| Federations.BoundaryRowIs | coordinator/coordinator.cpp:247-343 | a row of the coordinator's system holds if and only if the full row of that interface does |
| Federations.FederatedSolvesMonolithic | coordinator/coordinator.cpp:247-345 | the coordinator's and the hosts' voltages satisfy every row of the interconnected network but the grounded one |
| Federations.MonolithicIsFederated | coordinator/coordinator.cpp:247-345 | every solution of the interconnected network is what coordinator and hosts compute |
| FederatedEnergy.HostEnergy | powersimulation/connected_component.cpp:942-956 | without injections the energy of a host's network is minus the energy that its boundary interfaces put into the ties |
| FederatedEnergy.BoundaryNonsingular | coordinator/coordinator.cpp:330-344 | the boundary matrix of a connected federation is nonsingular once grounded |
| FederatedRuns.CoordinatedIsMonolithic | coordinator/coordinator.cpp:149-812 | in every reachable state of the coordinator the voltages it holds, with the hosts' back substitutions, solve the interconnected network if and only if what the hosts have sent since the last cancellation is up to date |
| FederatedRuns.AnswersAreCurrents | coordinator/coordinator.cpp:355-378 | the voltages told are those the hosts hold, and the currents told are those that enter their networks at every boundary interface but the grounded one if and only if what the hosts have sent is up to date |
| FederatedRuns.AfterCancellation | coordinator/coordinator.cpp:649-812 | right after a cancellation they do if and only if every host's corrections are 0, apart from the grounded interface |
| Cancellations.CancellationForgets | coordinator/coordinator.cpp:649-812 | a run in which the voltages are right, a third host joins and leaves, and the same network's voltages are wrong |
| FederatedRuns.TotalsOverHosts | coordinator/coordinator.cpp:24-40 | the totals kept host by host are those over all appliances of all hosts |
| FederatedRuns.CoordinatedSharingIsFlat | coordinator/coordinator.cpp:42-98 | in every reachable state an appliance gets what balancing all hosts' appliances together would give it if and only if its host does not divide by 0 where that balancing does not |
| Dispatchers.ConcurrentQueue.Push | coordinator/concurrent_queue.h:17-23 | the new element is last |
| Dispatchers.ConcurrentQueue.TryPop | coordinator/concurrent_queue.h:31-43 | the first element is taken out, or nothing happens to an empty queue |
| Dispatchers.ConcurrentQueue.WaitAndPop | coordinator/concurrent_queue.h:45-56 | the first element is taken out |
| Dispatchers.RunKeeps | coordinator/threads_functions.cpp:9-40 | every step of every interleaving keeps order, completeness and the bound on dispatches |
| Dispatchers.DispatchedInOrder | coordinator/threads_functions.cpp:9-40 | dispatched requests are a prefix of those pushed, and at most one more than the flag was set |
| Dispatchers.OnePerSet | coordinator/threads_functions.cpp:11-13 | from a quiet state on there is at most one dispatch per set of the flag |
| Dispatchers.SetsAccounted | coordinator/threads_functions.cpp:10-12 | the exact account of a run: dispatches made and to come, and sets lost because the flag was true already, add up to the sets |
| Dispatchers.EverySetPaysIff | coordinator/threads_functions.cpp:10-12 | every set of the flag pays for a dispatch if and only if the flag was false whenever it was set |
| Dispatchers.LostInWindow | coordinator/threads_functions.cpp:11-12 | a set between test and clear is lost: the dispatcher then waits although a request is queued |
| Dispatchers.LostBeforeTest | coordinator/threads_functions.cpp:11-12 | a set of a flag that nobody has tested yet is lost as well |
| Dispatchers.Dispatcher.RegisterRequest | coordinator/coordinator.cpp:614-638 | another thread's push is the register step of the state machine |
| Dispatchers.Dispatcher.Release | coordinator/coordinator.cpp:424-424 | setting the flag at the end of a coordination is its own step |
| Dispatchers.Dispatcher.TestFlag | coordinator/threads_functions.cpp:10-11 | testing the flag is a step of its own, which changes nothing but the position |
| Dispatchers.Dispatcher.ClearFlag | coordinator/threads_functions.cpp:12-12 | clearing the flag is a later step of its own |
| Dispatchers.Dispatcher.Dispatch | coordinator/threads_functions.cpp:13-38 | the concrete step is the step of the state machine, and the first request goes out |
| Tlv.Padded | scoreplusgui/api.tcl:3163-3177 | header, data and padding together fill 32-bit words |
| Tlv.BuiltInWords | scoreplusgui/api.tcl:3132-3161 | every TLV that is built occupies a multiple of 4 bytes |
| Tlv.BuiltLayout | scoreplusgui/api.tcl:3132-3177 | byte by byte: type, length in one byte or behind a zero in two with the high byte first, data, fewer than 4 zeros |
| Tlv.ParseTlvHeader | scoreplusgui/api.tcl:3102-3130 | the header read from a byte string, and where the data begins |
| Tlv.ParseMessage | scoreplusgui/api.tcl:1643-1684 | the loop ends on every byte string, with the values of the recursive description |
| Tlv.HeaderRoundTrip | scoreplusgui/api.tcl:3102-3161 | a header is read back as written, wherever it stands, for every type of a signed byte |
| Tlv.ParseUndoesBuild | scoreplusgui/api.tcl:1643-1684 | parsing concatenated string TLVs gives back all values and ends exactly at the end |
| Tlv.EachValueFound | scoreplusgui/api.tcl:1643-1684 | with distinct names each value found is the value sent |
| Tlv.SingleExactIff | scoreplusgui/api.tcl:1643-1684 | for all default values a single TLV comes back exactly if and only if it is sendable, or empty where the default is empty |
| Tlv.NumberRead | scoreplusgui/api.tcl:1669-1681 | a number of 2, 4, 8 or 16 bytes, the middle two behind 2 bytes of padding, is the value found, and the parser ends behind it; type 6 skips 2 more |
| Tlv.UnknownSkipped | scoreplusgui/api.tcl:1660-1664 | a TLV of an unknown type is skipped up to its padding, so the parser meets the next TLV if and only if there is no padding |
| Tlv.UnknownHidesNext | scoreplusgui/api.tcl:1660-1664 | a message whose second TLV is known and is not found behind an unknown one |

## Left out

- Rounding, the near-zero and over-range clamps, and the precision of numbers printed into messages: arithmetic is exact, and a number in a message is a token. Exact zeros are still not sent.
- The library's LU decomposition and its permutations: inverse and solution are computed by elimination with row exchange.
- Sockets, ports, threads, sleeps, logging and memory management; a message is what it contains, and a step of another thread is a step of a state machine.
- The blocking of wait_and_pop: waiting is a state in which the dispatcher's step is not enabled while the queue is empty.
- PowerSlaves.PowerSlave.constructor: the slave's matrices and vectors are kept as values in its fields, not as arrays updated in place.
- Messages.RequestFirstPhase: creates the slave that the first message would create in another process, and the order of tokens in a message is that of the sending loops.
- Assembly.RangesFit: a server whose only interface is the grounded one has an empty block, which the model inverts trivially and the numerical library refuses to allocate.
- Simulations.Simulate: assumes that whatever is wired to a switch interface and is none itself has no other neighbour, and that no desired total that is divided by is zero; the component object is created where the calculation begins.
- Simulations.UpdateLineCurrents: the currents of transmission lines in the cached updates and in the federated calculation are read off in the same way and are not modelled again.
- Balancing.CurrentState.LoadBalancing: infinities and NaNs are not told apart; both are currents that are not there.
- Grids.AdjacencySymmetric: assumes that no line joins an interface to itself, that resistances are positive, and that every interface is named after its node with one digit.
- Topology.PowerSimulator.CreateAdjList: starts from an empty adjacency list, as after construction.
- Topology.PowerSimulator.FindConnectedComponents: starts from an empty list of components; a second search without clearing would append every component again.
- Simulations.CurrentLawEverywhere: assumes the wiring of Simulations.KirchhoffEverywhere; without it Simulations.CurrentLawIff says where the law holds, apart from the grounded interface.
- Simulations.KirchhoffEverywhere: assumes the same wiring of appliances as Injections.GroundedRowHolds.
- Injections.GroundedRowHolds: assumes one line from each appliance to one switch interface and at most one appliance per switch interface.
- Federations.FederatedSolvesMonolithic: assumes that the boundary interfaces of one host are not adjacent to each other and carry no injection, since only diagonal entries are sent and injections are taken to be 0.
- ConnectedComponents.UpdateFreshIff: says nothing about injections that drop to zero where an edging line ends; StaleLaws.SentFreshIff and StaleLaws.HeldFreshIff do.
- StaleLaws.HeldFreshIff: says nothing about updates that send a zero where an edging line ends; there an old value may happen to be the right one.
- HostRuns.RegisterHost: assumes a dynamic connection, boundary interfaces that are not adjacent and have no appliance, not more boundary interfaces than connections, and an A that still holds the network (HostRuns.CutLeavesNetwork).
- FederatedRuns.CoordinatedIsMonolithic: says nothing about the row of the grounded boundary interface, which holds only if all injections of the federation sum to zero.
- Coordinators.Coordinator.Coordinate: assumes that the host has sent its loads, has not registered before, and that ties are mutual and one to one.
- Coordinators.Coordinator.UnRegisterRequest: assumes that the leaving host has registered and that every partner of it is still registered; the program looks both up without a check.
- Coordinators.Coordinator.CoordinateUpdate: assumes that a host sends as many corrections as it has registered interfaces.
- ConnectedComponents.ConnectedComponent.LocalUpdate: new injections are taken as given in I; the loop that refills I is the one of Leftovers.RefillInjections.
- Leftovers.ShortSent: assumes that no interior row has been refilled; in general the corrections are right exactly when those of the missing injections vanish.
- Sharing among threads: the coordinator's methods are modelled one at a time, and only the flag and the queue of the dispatcher interleave.
- The previous matrices YBB_pre, VB_pre and IB_pre: they always name the current ones.
- Handshakes.NamesMeet: assumes that each host has registered one batch of connections; Reconstructions.BatchesAligned says what happens otherwise.
- TLV values of 2, 4, 8 and 16 bytes are kept as bytes instead of being converted to numbers.
- The forwarder and the hardware testbed: hard-coded addresses around the same calculations.
- The storage monitor, packet chunking, field splitting, scenario files and address helpers: they would only add easy members.
- The rest of the Tcl user interface and the build scripts.
