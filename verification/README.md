# Verification of the PacketRusher data plane and security code

PacketRusher simulates 5G user equipment and base stations. It ships the `gtp5g` kernel
module, a user-plane data path, and Go code for identity concealment, NAS security and
gNB bookkeeping. This project models the stateful and arithmetic core of that code in
Dafny and proves what it keeps over every run. `dafny verify dfyconfig.toml` checks it.

| file | component |
|---|---|
| `Policer.dfy` | token-bucket policer of a QER, in 64-bit arithmetic |
| `Rules.dfy`, `Classifier.dfy` | packet rules, precedence-ordered lookup buckets |
| `Links.dfy`, `RuleEngine.dfy`, `Answers.dfy`, `PdrFields.dfy`, `RuleWitnesses.dfy`, `Policing.dfy`, `Device.dfy` | links between PDRs and FARs, QERs, URRs; netlink commands and their answers, what a PDR holds, runs that go wrong, the choice of the policing QER; the device object |
| `IdTable.dfy` | bucketed id tables |
| `Meter.dfy`, `PacketCounts.dfy`, `Usage.dfy`, `UrrSettings.dfy`, `PacketEffects.dfy`, `Reports.dfy`, `Measured.dfy`, `Thresholds.dfy` | double-buffered usage counters, measuring, settings, effects of a packet; what was measured, reported and held, and threshold reports, over whole runs |
| `Forwarding.dfy` | the way of a packet through a PDR: FAR, policer, URRs; rate and quota enforcement over whole runs |
| `Quota.dfy`, `QuotaLinks.dfy`, `QuotaReports.dfy`, `QuotaLaw.dfy`, `QuotaWitnesses.dfy`, `SavedArrays.dfy`, `Dropping.dfy` | quota actions, the PDRs they meet on a device, quota reports, saved actions and dropping FARs of whole runs |
| `GtpHeader.dfy` | GTP-U header writer and reader |
| `HexText.dfy`, `SuciText.dfy`, `Concealment.dfy`, `SchemeOutput.dfy` | TBCD, SUCI text, ECIES concealment and deconcealment, what is sent and accepted |
| `NasSecurity.dfy`, `NasDownlink.dfy` | protected NAS messages, COUNT estimation, uplink and downlink runs |
| `GnbPools.dfy` | UE, PacketRusher-id and TEID pools of a gNB |
| `Base.dfy` | shared types and 64-bit wrap-around |

How things are modelled:

- Each netlink command, each packet and each handler is one atomic step. One step reads
  the clock once.
- Code that updates objects in place is a class whose methods are proved equal to a
  function on the object's value; invariants and run theorems are proved about that
  function. Id tables appear as finite maps in `RuleEngine`; `IdTable` proves that the
  bucketed tables refine such maps.
- Hash functions, clocks, ephemeral keys, the outcome of FAR parameter parsing and of the
  socket update of a PDR, the availability of an AMF and the cryptographic primitives are
  parameters. Of the hash functions nothing is assumed. Of the primitives only what
  `Concealment.Lawful` and `NasSecurity.Lawful` say.
- A list node of a PDR is free, in its list or poisoned. Following a null FAR id and
  unlinking a poisoned node are faults of the command.
- A PDR is identified by its key; FAR and QER objects get a fresh identity per
  allocation, so a re-created object is distinguished from the deleted one.

Promises that turned out not to hold, with their exact condition:

- The colour of a packet is decided on the buckets before the refill, so it can be worse
  than RFC 2697 gives (`ColourAgainstRfc2697`, `ColourDiffersFromRfc2697`).
- A PDR replace keeps the related-FAR table right only if the FAR exists, the new FAR id
  shares a bucket with the old one and the PDR gets its socket (`StepInvIff`,
  `ChangedFarLeavesNode`, `StaleNodeRun`, `DropLeavesNode`, `OrphanLeavesNode`).
- A PDR that moved from the address table to the TEID table can be neither replaced nor
  deleted: the driver unlinks its poisoned address node again (`PoisonedIffMoved`,
  `FaultIffMoved`, `MovedPdrFaults`).
- Deleting a QER also switches off the policing of PDRs that police with another QER
  (`DelQerSparesOthersIff`, `PolicingLost`), and a QER that gets policers after the PDR was
  created is not policed with (`PolicingStepIff`, `LateQerIgnored`).
- Reversing a quota exhaustion restores the FAR actions only if no FAR that was not dropping
  is met twice, through two related PDRs or one PDR with two URRs in a bucket; where PDRs of
  two sessions have one id, a FAR can get the action of another (`ReverseRestoresIff`,
  `ComesBackIff`, `DeviceRestoresIff`, `DeviceBackTo`, `SharedFarStaysDropped`,
  `ForeignActionRestored`, `TwoUrrsRun`).
- Two URRs that share a FAR must be reversed in the opposite order of their exhaustion
  (`TwoUrrsRestoreIff`, `SharedFarDropsForGood`, `LifoRestores`).
- The exhaustion of a URR can make FARs of other sessions drop (`ExhaustSparesOthersIff`,
  `OtherSessionDrops`).
- A URR that raises a threshold and a quota report at once can overrun the report slots of its
  PDR (`ReportsFitIff`, `TwoReportsForOneSlot`).
- With a period, a threshold report does not carry the volume that reached the threshold and is
  repeated by every packet until the period ends (`PeriodicThresholdSentIff`,
  `ThresholdReportsEmpty`).
- The arrays of saved actions hold 255 entries, and more PDRs overrun them (`SavesFitIff`,
  `TooManyPdrs`).
- The arrays of saved actions are released twice when an exhaustion has nothing to save and an
  earlier one had (`FreesTwiceIff`, `FreedTwice`).
- A measuring URR without trigger suppresses every report of the packet, also that of a
  quota whose FARs are already dropping (`AbortsIff`, `AbortLosesReport`, `LostQuotaReport`).
- The exhaustion of a quota is reported once per grant only if no command lets the exhausted
  URR measure again (`QuotaAtMostOnce`, `OnceAlwaysIff`, `RepeatedQuotaReports`), and never for
  a grant without total volume to a VOLQU-only URR (`GrantIs`).
- The deletion of an exhausted URR leaves its FARs dropping for good (`DropsForGoodIff`,
  `DeletionDropsForGoodIff`, `DeletedUrrDropsForGood`).
- A new quota does not resume the measurement it interrupted; only the measurement
  information in the command does (`GrantIs`).
- The report made when a URR is deleted misses the running period (`DeletionLoses`,
  `LostIsRunningPeriod`, `DeletedInFirstPeriod`).
- The first uplink packet of a URR with the START trigger is to be withheld; it is passed on if it
  leaves the tunnel (`PassedOnIff`, `FirstPacketLeaves`).
- The GTP-U length field is wrong exactly when QFI is 0 and sequence numbers are on, or the
  length does not fit (`LengthFieldIff`).
- A downlink NAS message with a wrong MAC moves the UE's COUNT forward, or back to zero together
  with other keys if it decodes to a SECURITY MODE COMMAND (`DroppedMoves`,
  `ForgedDownlinkMovesWindow`, `ForgeryBreaksDownlink`, `ForgedCommandRollsBack`,
  `ForgedCommandChangesKeys`).
- The uplink receiver accepts replays of the last message and of every new-context message with
  a COUNT of at most 255 (`ReplayLaw`); the latter move its COUNT back (`RollbackDropsNext`),
  and then it accepts ordinary messages again too (`PassesIff`, `RollbackReplays`).
- A TEID of a refused or deleted session leads to its UE even after the UE is deleted
  (`DeleteGnbUe`, `DeletedUeIsFound`).

Where code and comments disagree the code is followed: the guard for PDU session ids in
`ue.go` can never fire, so an id outside 1 to 16 indexes the session array out of range. The
comment on the public key id of a SUCI says 1 to 255, its expression also accepts 0.

## Model

| member | source | states |
|---|---|---|
| `Policer.TrafficPolicer.PolicePacket` | lib/gtp5g/src/gtpu/trTCM.c:42-93 | the 64-bit code computes the specification `Police`, which `PoliceIs` fixes: no hidden wrap-around or underflow in the buckets, the carry or the charge |
| `Policer.TrafficPolicer.TakeTokens` | lib/gtp5g/src/gtpu/trTCM.c:50-62 | tokens and carry after the clock advanced, the subtraction of consumed time never underflows |
| `Policer.TrafficPolicer.FillAndCharge` | lib/gtp5g/src/gtpu/trTCM.c:64-92 | fill, decide and charge in 64 bits never under- or overflow although the test uses the old buckets |
| `Policer.TrafficPolicer.constructor` | lib/gtp5g/src/gtpu/trTCM.c:12-40 | a new policer has the value `Fresh` |
| `Policer.Fresh` | lib/gtp5g/src/gtpu/trTCM.c:12-40 | every rate gives a valid policer with full buckets and a burst of at least one MTU, at the given time |
| `Policer.FreshBurst` | lib/gtp5g/src/gtpu/trTCM.c:21-29 | below 2^64/1000 kbit/s the burst is 8 ms worth of the rate, at least one MTU |
| `Policer.Police` | lib/gtp5g/src/gtpu/trTCM.c:64-92 | every call keeps tc <= cbs and te <= ebs and decides on the buckets before the refill; what it leaves is in `PoliceIs` |
| `Policer.PoliceIs` | lib/gtp5g/src/gtpu/trTCM.c:42-93 | one call exactly, from the elapsed 64-bit time: the colour by the buckets before the refill; for every colour the buckets after n one-token updates, less the length if the packet passes; the time left over |
| `Policer.CarryBounds` | lib/gtp5g/src/gtpu/trTCM.c:56-62 | taking whole tokens out of time loses no credit and invents less than one nanosecond, whether or not the product wrapped |
| `Policer.RefillIsIteratedTokens` | lib/gtp5g/src/gtpu/trTCM.c:64-72 | the batch refill of n tokens equals n one-token updates of section 3 of RFC 2697 |
| `Policer.ColourAgainstRfc2697` | lib/gtp5g/src/gtpu/trTCM.c:74-92 | the colour is never better than RFC 2697 on the refilled buckets, the same exactly when the refill does not lift the deciding bucket over the length, and then the buckets are those RFC 2697 leaves |
| `Policer.ColourDiffersFromRfc2697` | lib/gtp5g/src/gtpu/trTCM.c:74-92 | a concrete packet that is red although RFC 2697 makes it green |
| `Policer.NegativeLengthIsRed` | lib/gtp5g/src/gtpu/trTCM.c:42-92 | a negative C length is compared as a huge unsigned number and always dropped |
| `Policer.StepCredit` | lib/gtp5g/src/gtpu/trTCM.c:42-93 | one call cannot let through more than the credit it had plus what the elapsed time earned |
| `Policer.RunCredit` | lib/gtp5g/src/gtpu/trTCM.c:42-93 | for every run, wrapped or not, accepted bytes plus remaining credit are bounded by initial credit plus rate times time plus less than 1 ns per packet |
| `Policer.ConformanceFromStart` | lib/gtp5g/src/gtpu/trTCM.c:12-93 | rate conformance of every run of a new policer: both bursts plus rate times time |
| `Policer.RunTimeCarry` | lib/gtp5g/src/gtpu/trTCM.c:50-62 | over every run without wrap, tokens plus carry account for all elapsed time, and the carry stays below one token plus 1 ns |
| `Policer.RunTimeIsClockDifference` | lib/gtp5g/src/gtpu/trTCM.c:50-51 | with a nondecreasing clock the elapsed times of a run add up to the clock difference |
| `Rules.CheckPorts` | lib/gtp5g/src/pfcp/pdr.c:181-193 | true exactly when the list is empty or some range contains the port |
| `Rules.CheckSdf` | lib/gtp5g/src/pfcp/pdr.c:195-255 | true exactly when every present condition of the filter holds |
| `Rules.RuleIff` | lib/gtp5g/src/pfcp/pdr.c:195-255 | which packets a filter rule lets pass, by direction, protocol, masked addresses and port ranges |
| `Rules.FilterIff` | lib/gtp5g/src/pfcp/pdr.c:195-216 | no filter lets everything pass, a filter needs a readable inner header |
| `Rules.GtpMatchIff` | lib/gtp5g/src/pfcp/pdr.c:257-321 | which packets a PDR takes from a tunnel: TEID; of a T-PDU also the outer address, the inner source at a UPF and the inner destination at a RAN node, and the filter |
| `Classifier.WithoutKeepsOrder` | lib/gtp5g/src/pfcp/pdr.c:367-371 | unlinking a PDR keeps a bucket free of duplicates and sorted |
| `Classifier.WithoutIs` | lib/gtp5g/src/pfcp/pdr.c:367-371 | unlinking takes out the node of the PDR and leaves the rest as it is |
| `Classifier.InsertByPrecedence` | lib/gtp5g/src/pfcp/pdr.c:378-390 | the scan inserts before the first entry of equal or larger precedence value |
| `Classifier.InsertKeepsOrder` | lib/gtp5g/src/pfcp/pdr.c:378-390 | insertion keeps a bucket sorted and without duplicates and adds exactly the new PDR |
| `Classifier.UnlinkRemoves` | lib/gtp5g/src/pfcp/pdr.c:95-99 | unlinking a PDR that is in its list leaves tables that are exact for the remaining PDRs |
| `Classifier.LinkIndexes` | lib/gtp5g/src/pfcp/pdr.c:373-404 | linking keeps every bucket exact and sorted, for any hash function |
| `Classifier.FirstIsBest` | lib/gtp5g/src/pfcp/pdr.c:282-320 | the first match of one bucket is a match of least precedence value in the whole table |
| `Classifier.CheckGtp` | lib/gtp5g/src/pfcp/pdr.c:283-318 | the tests of the TEID loop accept exactly the matching PDRs |
| `Classifier.FindByGtp1u` | lib/gtp5g/src/pfcp/pdr.c:257-321 | returns a match of least precedence value among all installed PDRs with an F-TEID, or nothing exactly when none matches |
| `Classifier.FindByIpv4` | lib/gtp5g/src/pfcp/pdr.c:323-347 | the same for the address table |
| `Links.SetNodesCount` | lib/gtp5g/src/pfcp/qer.c:137-161 | the number of nodes of every PDR in every bucket after its nodes were set |
| `Links.DelNodesCount` | lib/gtp5g/src/pfcp/qer.c:111-135 | the deletion loop removes one node per named id and nobody else's |
| `Links.AddNodesCount` | lib/gtp5g/src/pfcp/urr.c:243-253 | the linking loop adds one node per named id |
| `Links.AddNodesFront` | lib/gtp5g/src/pfcp/urr.c:243-253 | new nodes go to the front of their buckets, the rest stays in order |
| `Links.SetNodesRelatedIff` | lib/gtp5g/src/pfcp/far.c:162-184 | node counts stay right if and only if the new ids cover the buckets of the old ones |
| `Links.DelNodesRelated` | lib/gtp5g/src/pfcp/urr.c:205-229 | deleting a PDR removes all of its nodes |
| `Links.NoDangling` | lib/gtp5g/src/pfcp/far.c:60-66 | a walk only meets nodes of installed PDRs |
| `Links.WalkReaches` | lib/gtp5g/src/pfcp/far.c:94-106 | a walk over one bucket reaches every PDR that names the id |
| `Links.InBucketIff` | lib/gtp5g/src/pfcp/qer.c:137-161 | a bucket holds a node of a PDR exactly when the PDR names an id that hashes there |
| `Links.Merge` | lib/gtp5g/src/genl/genl_pdr.c:343-363 | the id list of a PDR only grows, by the ids of the command |
| `Links.MergeIds` | lib/gtp5g/src/genl/genl_pdr.c:379-399 | the attribute loop computes that list |
| `Links.MergeDistinct` | lib/gtp5g/src/genl/genl_pdr.c:379-399 | the ids of a PDR stay distinct |
| `Links.MergeConcat` | lib/gtp5g/src/genl/genl_pdr.c:379-399 | new ids are appended in the order of the command, at their first occurrence |
| `Links.DelRelated` | lib/gtp5g/src/pfcp/qer.c:111-135 | the nested loops compute `DelNodes` |
| `Links.SetRelated` | lib/gtp5g/src/pfcp/qer.c:137-161 | the nested loops compute `SetNodes` |
| `RuleEngine.FarStepInv` | lib/gtp5g/src/pfcp/far.c:44-107 | creating, replacing or deleting a FAR leaves every `pdr->far` equal to the stored FAR, null exactly when none is stored |
| `RuleEngine.PutFarInv` | lib/gtp5g/src/genl/genl_far.c:29-156 | every FAR add or replace command, successful or not, keeps all tables and links right |
| `RuleEngine.DelFarInv` | lib/gtp5g/src/genl/genl_far.c:158-208 | so does every FAR delete |
| `RuleEngine.PutQerInv` | lib/gtp5g/src/genl/genl_qer.c:62-116 | so does every QER add or replace |
| `RuleEngine.DelQerInv` | lib/gtp5g/src/genl/genl_qer.c:118-175 | so does every QER delete |
| `RuleEngine.DelQerLeavesNoUser` | lib/gtp5g/src/pfcp/qer.c:163-178 | after a QER delete no installed PDR polices with it |
| `RuleEngine.DelQerSparesOthersIff` | lib/gtp5g/src/pfcp/qer.c:163-178 | a QER delete leaves the policing of all PDRs with other QERs alone if and only if no PDR that polices with another QER names an id in the bucket |
| `RuleWitnesses.PolicingLost` | lib/gtp5g/src/pfcp/qer.c:163-178 | a run of commands from the empty device after which the deletion of one QER stops the policing with another |
| `Policing.InstallPolicesRight` | lib/gtp5g/src/genl/genl_pdr.c:494-500 | creating or replacing a PDR makes it police with the last of its QERs that has policers, and not at all if none has |
| `Policing.PutQerRightIff` | lib/gtp5g/src/genl/genl_qer.c:62-116 | a QER command leaves that so if and only if it does not give policers to a QER that becomes the last |
| `Policing.DelQerRightIff` | lib/gtp5g/src/pfcp/qer.c:163-178 | a QER delete leaves that so if and only if the PDR has no id in the bucket or no other QER with policers |
| `Policing.PolicingStepIff` | lib/gtp5g/src/pfcp/qer.c:66-79 | the same for every command: exactly which ones leave a PDR policing with the last of its QERs that has policers |
| `Policing.LateQerIgnored` | lib/gtp5g/src/pfcp/qer.c:66-79 | a run of commands from the empty device after which a PDR does not police although its QER has policers |
| `RuleEngine.DelPdrInv` | lib/gtp5g/src/genl/genl_pdr.c:184-197 | every PDR delete that does not fault keeps all tables and links right |
| `RuleEngine.InstallInvIff` | lib/gtp5g/src/genl/genl_pdr.c:474-517 | registering a PDR keeps them right, list nodes included, if and only if its FAR bucket does not change |
| `RuleEngine.DropLeavesNode` | lib/gtp5g/src/genl/genl_pdr.c:90-94 | a replace whose FAR is missing frees the PDR and leaves a node of it |
| `RuleEngine.DropInvIff` | lib/gtp5g/src/pfcp/pdr.c:87-103 | freeing a PDR without its related nodes is harmless if and only if it is not installed |
| `RuleEngine.OrphanLeavesNode` | lib/gtp5g/src/genl/genl_pdr.c:481-512 | a PDR that gets no socket is freed after its related nodes were set, and leaves them behind |
| `RuleEngine.ChangedFarLeavesNode` | lib/gtp5g/src/pfcp/far.c:139-184 | after a change to a FAR in another bucket a node survives even the deletion of the PDR |
| `RuleWitnesses.StaleNodeRun` | lib/gtp5g/src/genl/genl_pdr.c:77-145 | a run of commands from the empty device after which such a node survives its PDR |
| `RuleEngine.LinkedOnce` | lib/gtp5g/src/pfcp/pdr.c:359-405 | over both lookup tables a PDR is linked at most once, and linked exactly when it has an F-TEID or a UE address |
| `RuleEngine.StepInvIff` | lib/gtp5g/src/genl/genl_pdr.c:77-197 | a command neither faults nor breaks the invariant if and only if it is admissible |
| `RuleEngine.RunInv` | lib/gtp5g/src/genl/genl_pdr.c:31-197 | every state of every admissible run satisfies the invariant |
| `RuleEngine.MovePoisons` | lib/gtp5g/src/pfcp/pdr.c:367-404 | the attributes of a replace can move a PDR from the address table to the TEID table and never back, and exactly that move leaves a poisoned address node |
| `RuleEngine.PoisonedIffMoved` | lib/gtp5g/src/pfcp/pdr.c:359-405 | over every run, the address node of a PDR is poisoned if and only if the PDR moved from the address table to the TEID table since it was created |
| `RuleEngine.FaultIffMoved` | lib/gtp5g/src/pfcp/pdr.c:87-103 | after every admissible run from the empty device, a command faults on a poisoned node if and only if it replaces or deletes a PDR that moved |
| `RuleWitnesses.MovedPdrFaults` | lib/gtp5g/src/pfcp/pdr.c:87-103 | three admissible commands from the empty device after which a PDR can be neither replaced nor deleted |
| `RuleEngine.InitInv` | lib/gtp5g/include/dev.h:25-44 | the empty device satisfies it |
| `Answers.AnswerIs` | lib/gtp5g/src/genl/genl_pdr.c:84-145 | which command is answered with which status, for all commands; what is refused or faults changes nothing |
| `Answers.PdrsAfter` | lib/gtp5g/src/genl/genl_pdr.c:84-197 | which PDRs are installed after every command, and that a PDR command leaves all others alone |
| `Answers.RulesAfter` | lib/gtp5g/src/genl/genl_far.c:29-208 | the stored FARs and QERs after every command: new objects for new rules, the same object for a replaced one, policers once a rate was given |
| `PdrFields.StepHolds` | lib/gtp5g/src/genl/genl_pdr.c:401-517 | an accepted PDR command leaves in precedence, FAR id, UE address, F-TEID, filter and the QER and URR ids what it carries and else what the PDR held; no other command changes them |
| `PdrFields.HeldIsLastCommanded` | lib/gtp5g/src/genl/genl_pdr.c:401-517 | after every admissible run each of these holds a value if and only if the last accepted command since the creation of the PDR that carried it carried that value |
| `Device.GtpDevice.constructor` | lib/gtp5g/include/dev.h:17-44 | a new device is empty and valid |
| `Device.GtpDevice.WalkFar` | lib/gtp5g/src/pfcp/far.c:94-106 | the loop sets `pdr->far` of exactly the PDRs in the bucket that name the FAR |
| `Device.GtpDevice.AddFar` | lib/gtp5g/src/genl/genl_far.c:29-156 | the handler performs the specified step, status included, and keeps the device valid |
| `Device.GtpDevice.RemoveFar` | lib/gtp5g/src/genl/genl_far.c:158-208 | likewise |
| `Device.GtpDevice.AddQer` | lib/gtp5g/src/genl/genl_qer.c:62-116 | likewise |
| `Device.GtpDevice.RemoveQer` | lib/gtp5g/src/genl/genl_qer.c:157-175 | likewise, with the loop that clears `qer_with_rate` |
| `Device.GtpDevice.WalkQer` | lib/gtp5g/src/pfcp/qer.c:172-177 | the loop clears the policing of exactly the PDRs in the bucket |
| `Device.GtpDevice.PickRate` | lib/gtp5g/src/genl/genl_pdr.c:496-500 | the loop selects the last QER with policers, else keeps the pointer |
| `Device.GtpDevice.UpdateTable` | lib/gtp5g/src/pfcp/pdr.c:359-405 | one table after unlinking and linking by precedence |
| `Device.GtpDevice.Register` | lib/gtp5g/src/genl/genl_pdr.c:479-517 | the PDR with its links and list nodes and the five tables after registration |
| `Device.GtpDevice.AddPdr` | lib/gtp5g/src/genl/genl_pdr.c:77-145 | the handler performs the specified step for every command, faults included; the admissible ones are exactly those that neither fault nor make the device invalid |
| `Device.GtpDevice.FillPdrAndRegister` | lib/gtp5g/src/genl/genl_pdr.c:401-518 | the attribute loop, the FAR lookup, the nodes, the socket and the tables in their order, with the freed PDR on failure; what is stored is in `PdrFields` |
| `Device.GtpDevice.SetAllRelated` | lib/gtp5g/src/genl/genl_pdr.c:481-491 | the three related tables after the PDR's nodes were set |
| `Device.GtpDevice.RemovePdr` | lib/gtp5g/src/genl/genl_pdr.c:184-197 | likewise; it faults exactly when it is not admissible and never makes the device invalid |
| `Device.GtpDevice.Classify` | lib/gtp5g/src/gtpu/encap.c:339-346 | the receive path gets a best match and the FAR that is stored for it |
| `Device.GtpDevice.ClassifyIpv4` | lib/gtp5g/src/pfcp/pdr.c:323-347 | the downlink path gets a best match by address |
| `IdTable.ScanFinds` | lib/gtp5g/src/pfcp/far.c:71-85 | a lookup finds an entry exactly when the map has the key, and the right one |
| `IdTable.AppendRefines` | lib/gtp5g/src/pfcp/pdr.c:349-357 | adding at the head of a bucket adds one binding to the map |
| `IdTable.DeleteRefines` | lib/gtp5g/src/pfcp/far.c:55-56 | unlinking removes one binding |
| `IdTable.TableRefinesMap` | lib/gtp5g/src/genl/genl_far.c:74-151 | over every run of add and delete the table represents the map, for any hash function |
| `IdTable.HashTable.Find` | lib/gtp5g/src/pfcp/pdr.c:160-174 | the lookup loop agrees with the map |
| `Meter.Conservation` | lib/gtp5g/src/genl/genl_report.c:426-445 | volume counted = volume reported + volume held, for any clock and any interleaving, up to a multiple of 2^64 that is zero below 2^64 |
| `Meter.TotalsCohere` | lib/gtp5g/src/gtpu/encap.c:559-574 | in every counter and report the total is uplink plus downlink |
| `Meter.ClearForgets` | lib/gtp5g/src/genl/genl_urr.c:332-340 | after a reset the counters are those of the events since then |
| `Meter.ClockWraps` | lib/gtp5g/src/pfcp/urr.c:266-290 | the clock that selects the counter is cut off to 32 bits |
| `PacketCounts.PacketsConserved` | lib/gtp5g/src/gtpu/encap.c:559-566 | per direction, packets counted = packets reported + packets held, up to multiples of 2^64 |
| `PacketCounts.PacketTotalsCohere` | lib/gtp5g/src/gtpu/encap.c:559-566 | in every counter and report the number of packets is the sum of both directions |
| `Meter.NextPhase` | lib/gtp5g/src/pfcp/urr.c:266-290 | when a reported period ends, the other counter is empty and takes over |
| `Meter.ReportCarriesPreviousPeriod` | lib/gtp5g/src/pfcp/urr.c:266-290 | the first report of a period carries exactly the volume of the previous one, later ones nothing |
| `PacketCounts.ReportCarriesPreviousPackets` | lib/gtp5g/src/pfcp/urr.c:266-290 | the first report of a period carries the number of packets of the previous one per direction, later ones none |
| `Quota.SavedFor` | lib/gtp5g/src/pfcp/urr.c:107-117 | which action the exhaust loop remembers under a PDR id: what it met at the last node with that id, the drop it wrote itself included |
| `Quota.DropEffect` | lib/gtp5g/src/pfcp/urr.c:107-117 | after exhaustion exactly the FARs of the nodes drop |
| `Quota.RestoreEffect` | lib/gtp5g/src/pfcp/urr.c:154-165 | the last node that uses a FAR decides which action it gets back |
| `Quota.ExhaustOnce` | lib/gtp5g/src/pfcp/urr.c:91-94 | repeated exhaustion does nothing |
| `Quota.ReverseRestoresIff` | lib/gtp5g/src/pfcp/urr.c:83-173 | for every list of nodes, ids and FARs repeated or not: any number of exhaust actions makes exactly the related FARs drop, and one reverse action gives each the action `BackTo` names |
| `Quota.CycleIs` | lib/gtp5g/src/pfcp/urr.c:107-165 | the same for the two walks alone; everything comes back if and only if `BackTo` is the old action of every used FAR |
| `Quota.ComesBackIff` | lib/gtp5g/src/pfcp/urr.c:107-165 | where a PDR id stands for one FAR, everything comes back if and only if each FAR met twice was dropping |
| `QuotaWitnesses.SharedFarStaysDropped` | lib/gtp5g/src/pfcp/urr.c:83-173 | two PDRs with one forwarding FAR, or one PDR met twice: after two commands the FAR stays dropped |
| `QuotaWitnesses.ForeignActionRestored` | lib/gtp5g/src/pfcp/urr.c:154-165 | two PDRs with one id and different FARs: after two commands one FAR has the action of the other |
| `QuotaWitnesses.GrantCycle` | lib/gtp5g/src/genl/genl_urr.c:351-362 | a grant of nothing and a grant to a new URR are one exhaust and one reverse action, with the effect `Cycle` |
| `Quota.SavesFitIff` | lib/gtp5g/src/pfcp/urr.c:96-117 | the arrays of 255 saved entries suffice if and only if fewer than 255 nodes before the last one have a FAR |
| `Quota.SaveOverrunsIff` | lib/gtp5g/src/pfcp/urr.c:107-117 | the loop overruns them if and only if 255 nodes before the last one have a FAR |
| `Quota.TwoUrrsRestoreIff` | lib/gtp5g/src/pfcp/urr.c:83-173 | two URRs exhausted one after the other: reversing in the opposite order restores everything; in the same order it lifts the drop of the second early and does not restore everything, exactly when both use a FAR that was not dropping |
| `Quota.TooManyPdrs` | lib/gtp5g/src/pfcp/urr.c:96-117 | more than 255 related PDRs with FARs overrun them |
| `QuotaWitnesses.SharedFarDropsForGood` | lib/gtp5g/src/pfcp/urr.c:83-173 | a run from an empty session: two URRs spent and granted again in the same order, after which their FAR drops for good |
| `Quota.LifoRestores` | lib/gtp5g/src/pfcp/urr.c:83-173 | any number of URRs, sharing FARs at will, restore everything when reversed in the opposite order of their exhaustion |
| `Dropping.RestoreIs` | lib/gtp5g/src/pfcp/urr.c:154-165 | the action a reverse action gives to a FAR, whatever links and saved entries there are |
| `Dropping.DropsForGoodIff` | lib/gtp5g/src/pfcp/urr.c:83-173 | a FAR drops after every run of packets, requests and URR commands if and only if it drops now and no exhausted URR remembers another action for it |
| `Dropping.DeletionDropsForGoodIff` | lib/gtp5g/src/genl/genl_urr.c:172-191 | after the deletion of a URR a dropping FAR drops for good if and only if no other exhausted URR remembers another action for it |
| `Dropping.DeletedUrrDropsForGood` | lib/gtp5g/src/genl/genl_urr.c:172-191 | a run from an empty session: the FAR of an exhausted and deleted URR drops for good |
| `QuotaLinks.MeetingsCount` | lib/gtp5g/src/pfcp/urr.c:104-117 | how often the walk over the related-URR bucket meets a PDR: once per URR id of the PDR that hashes there |
| `QuotaLinks.NodesKnown` | lib/gtp5g/src/pfcp/urr.c:110-115 | every FAR pointer the walks follow is live |
| `QuotaLinks.MetConcat` | lib/gtp5g/src/pfcp/urr.c:107-117 | the related PDRs are met in the order of the bucket |
| `QuotaLinks.OwnPdrMet` | lib/gtp5g/src/pfcp/urr.c:107-117 | the exhaustion of a URR meets every PDR of its session that names it |
| `QuotaLinks.SharedIff` | lib/gtp5g/src/pfcp/urr.c:107-117 | a FAR is met twice if and only if two related PDRs have it or one with it has two URRs in the bucket |
| `QuotaLinks.DeviceRestoresIff` | lib/gtp5g/src/pfcp/urr.c:83-173 | on every valid device without an id clash, exhaust and reverse restore all actions if and only if no FAR that was not dropping is met twice |
| `QuotaLinks.DeviceBackTo` | lib/gtp5g/src/pfcp/urr.c:83-173 | the exact condition when PDRs of several sessions with equal ids meet in one bucket |
| `QuotaLinks.OneSessionNoClash` | lib/gtp5g/src/genl/genl_pdr.c:365-378 | PDRs of one session do not clash |
| `QuotaLinks.TwoUrrsInOneBucket` | lib/gtp5g/src/pfcp/urr.c:107-165 | a valid device with a single PDR, whose two URRs share a bucket, does not get its forwarding FAR back |
| `QuotaLinks.TwoUrrsRun` | lib/gtp5g/src/pfcp/urr.c:107-165 | two commands from the empty device that reach such a device |
| `QuotaLinks.ExhaustSparesOthersIff` | lib/gtp5g/src/pfcp/urr.c:104-117 | an exhaustion leaves the FARs of all other sessions alone if and only if no PDR of another session with a FAR that is not dropping names the same URR id and has one in the same bucket |
| `QuotaLinks.OtherSessionDrops` | lib/gtp5g/src/pfcp/urr.c:104-117 | four commands from the empty device after which the exhaustion of a URR makes the FAR of another session drop |
| `Usage.RunRecorded` | lib/gtp5g/src/gtpu/encap.c:591-718 | in every run of packets, reports and URR commands each URR's counters and reports are the ones its history yields |
| `Usage.SessionConserves` | lib/gtp5g/src/gtpu/encap.c:618-690 | volume conservation for every URR of every reachable session not refilled by START |
| `Usage.RecordedIsBalanced` | lib/gtp5g/src/genl/genl_report.c:426-445 | a URR whose counters follow its history is balanced: measured = reported + held |
| `Usage.SessionReportsPreviousPeriod` | lib/gtp5g/src/gtpu/encap.c:650-690 | the previous-period law for every URR of every reachable session |
| `Usage.AbortsIff` | lib/gtp5g/src/gtpu/encap.c:627-634 | a packet and its reports are given up if and only if one of its URRs measures without trigger |
| `Usage.ReportSentIff` | lib/gtp5g/src/gtpu/encap.c:618-690 | with distinct URRs and no triggerless one, a report is sent for a URR exactly when measuring it raised that report |
| `Usage.LoopRaises` | lib/gtp5g/src/gtpu/encap.c:618-672 | what the measuring loop leaves pending, URR by URR |
| `Usage.IncrementAndCheck` | lib/gtp5g/src/gtpu/encap.c:550-589 | the counter after the packet, and the check true exactly when an enabled limit is reached |
| `Usage.MeasureUrr` | lib/gtp5g/src/gtpu/encap.c:623-672 | the measuring code of one URR computes `Measure`; which volume it counts is in `Measured.StepGoesOn` |
| `Usage.UsageEngine.UpdateAndReport` | lib/gtp5g/src/gtpu/encap.c:591-718 | both loops compute `OnPacket`: state, reports and return value, and tell exactly when they write behind their arrays |
| `Measured.StepGoesOn` | lib/gtp5g/src/gtpu/encap.c:635-658 | every command: a packet that reaches a measuring URR is counted with its volume before QoS enforcement if the URR asks for it and after it otherwise, in its direction; nothing else is counted, and only a command for the START trigger alone resets |
| `Measured.HistoryIs` | lib/gtp5g/src/gtpu/encap.c:591-718 | over every run, what a URR has counted since it was created or reset are exactly those packets, and what was reported are the reports they yield |
| `Measured.ReportsAccount` | lib/gtp5g/src/gtpu/encap.c:591-718 | over every run, the volumes and the number of these packets per direction are those of the reports sent plus those held |
| `PacketEffects.StartSentIff` | lib/gtp5g/src/gtpu/encap.c:635-642 | a START report is sent if and only if an uplink packet names a measuring URR with this trigger and is not given up |
| `PacketEffects.ResultIs` | lib/gtp5g/src/gtpu/encap.c:591-718 | what is answered for a packet: given up, withheld or forwarded, with the exact conditions |
| `PacketEffects.TriggerlessIff` | lib/gtp5g/src/gtpu/encap.c:627-634 | a URR makes the driver give up exactly if it measures volume and has no trigger at all |
| `PacketEffects.PacketActions` | lib/gtp5g/src/gtpu/encap.c:618-672 | which FARs drop after a packet: those that did, and those of the related PDRs of every URR that the loop reaches and the packet exhausts |
| `Usage.UsageEngine.ExhaustAction` | lib/gtp5g/src/pfcp/urr.c:83-135 | the loop computes `Exhaust`, and tells exactly when it writes behind its arrays of 255 entries |
| `Usage.UsageEngine.ReverseAction` | lib/gtp5g/src/pfcp/urr.c:137-173 | the nested loops compute `Reverse` |
| `Usage.UsageEngine.ConvertToReport` | lib/gtp5g/src/genl/genl_report.c:426-445 | copies and zeroes the counter of the previous period, nothing else |
| `Usage.UsageEngine.FillUrr` | lib/gtp5g/src/genl/genl_urr.c:320-368 | fields, quota reset and quota action of a URR command, and when the latter writes behind its arrays |
| `Usage.SetFields` | lib/gtp5g/src/genl/genl_urr.c:329-349 | the attributes before the quota, one by one, with the reset for the START trigger |
| `UrrSettings.StepHolds` | lib/gtp5g/src/genl/genl_urr.c:320-368 | only a command about a URR changes its method, triggers, period, measurement information, threshold and quota, and only those it carries |
| `UrrSettings.HeldIsLastCarried` | lib/gtp5g/src/genl/genl_urr.c:320-368 | over every run each of these is what the last command since the creation of the URR that carried it carried, and unset if none did |
| `UrrSettings.PutInactive` | lib/gtp5g/src/genl/genl_urr.c:345-346 | a command that is no grant makes a URR inactive or active exactly as its measurement information says |
| `Usage.UsageEngine.QueryUrr` | lib/gtp5g/src/genl/genl_report.c:108-188 | the request sends the report of the previous counter, which is then zero |
| `Usage.UsageEngine.DeleteUrr` | lib/gtp5g/src/genl/genl_urr.c:151-191 | the deletion sends the same report and frees the URR |
| `Reports.SentIsRecorded` | lib/gtp5g/src/genl/genl_report.c:426-445 | in every run the reports sent about a URR since its creation are the ones recorded in it |
| `Reports.RequestedReport` | lib/gtp5g/src/genl/genl_report.c:426-445 | a request or a deletion yields one report without trigger, with the only counter of a URR without period and with the counter that is not being filled of one with a period |
| `Reports.UrrStaysIff` | lib/gtp5g/src/genl/genl_urr.c:21-194 | URRs come with a command about them and go with their deletion, and in no other way |
| `Reports.DeletionLoses` | lib/gtp5g/src/genl/genl_urr.c:172-191 | in every run, all reports about a deleted URR, the final one included, and the volume lost add up to the volume measured, up to a multiple of 2^64 that is zero below 2^64 |
| `Reports.LostIsRunningPeriod` | lib/gtp5g/src/genl/genl_urr.c:172-191 | for a periodic history the volume lost is exactly that of the running period, so nothing if and only if nothing was measured in it |
| `Reports.NothingLostWithoutPeriod` | lib/gtp5g/src/pfcp/urr.c:266-290 | without periods nothing is lost |
| `Reports.DeletedInFirstPeriod` | lib/gtp5g/src/genl/genl_urr.c:172-191 | a run in which the final report is empty and all measured volume is lost |
| `Reports.ReportsFitIff` | lib/gtp5g/src/gtpu/encap.c:610-667 | for every packet, given up or not: the one report slot per URR suffices if and only if the URRs visited before the first triggerless one raise no more reports than the PDR has URRs |
| `Reports.LoopOverrunsIff` | lib/gtp5g/src/gtpu/encap.c:610-667 | for every packet and any ids: the measuring loop overruns if and only if more reports are pending at the end than there are slots, or an exhaustion overruns its arrays |
| `Reports.TwoReportsForOneSlot` | lib/gtp5g/src/gtpu/encap.c:650-667 | a run from an empty session in which one URR raises two reports for one slot |
| `Thresholds.ThresholdReportIs` | lib/gtp5g/src/gtpu/encap.c:651-690 | what a VOLTH report carries: the counter that reached the threshold without a period, the other counter with one |
| `Thresholds.ThresholdSentIff` | lib/gtp5g/src/gtpu/encap.c:651-690 | in every reachable session, for a URR without periods: a VOLTH report is sent exactly by the packets that leave the volume since the last report at or above an enabled limit, and carries exactly that volume |
| `Thresholds.PeriodicThresholdSentIff` | lib/gtp5g/src/gtpu/encap.c:651-690 | in every reachable session with a periodic history: a VOLTH report is sent by every packet that leaves the volume of the running period at or above an enabled limit, and carries the previous period or nothing |
| `Thresholds.ThresholdReportsEmpty` | lib/gtp5g/src/gtpu/encap.c:651-690 | a run from an empty session with two VOLTH reports that carry no volume |
| `QuotaReports.GrantIs` | lib/gtp5g/src/genl/genl_urr.c:351-362 | what a grant does, for all URRs and grants: exhausted at once and unreported if and only if no total volume is granted to a VOLQU-only URR; armed, and measuring again, exactly under the stated conditions |
| `QuotaReports.QuotaAtMostOnce` | lib/gtp5g/src/gtpu/encap.c:660-667 | over every run of commands about any URRs without a further grant, deletion or reopening: at most one VOLQU report about the URR is sent, none once it is exhausted |
| `QuotaLaw.OnceAlwaysIff` | lib/gtp5g/src/gtpu/encap.c:660-667 | over every such run after a grant: at every point at most one VOLQU report, whatever packets follow, if and only if the URR is at no point exhausted and measuring against a quota within reach |
| `QuotaLaw.ConsumedIs` | lib/gtp5g/src/gtpu/encap.c:618-672 | over every run without a further grant and without deletion of the URR, whatever its settings are and become, it has consumed the volume of the packets that reached it while they counted |
| `QuotaLaw.VolquSentIff` | lib/gtp5g/src/gtpu/encap.c:591-718 | over every such run after a grant: a packet sends a VOLQU report if and only if it names the URR, is not given up, counts towards the quota, and leaves the volume counted since the grant at or above an enabled limit |
| `QuotaReports.AbortLosesReport` | lib/gtp5g/src/gtpu/encap.c:627-634 | a raised VOLQU report of a packet that is given up is lost although the URR is exhausted |
| `QuotaWitnesses.RepeatedQuotaReports` | lib/gtp5g/src/pfcp/urr.c:91-94 | a run from an empty session in which one grant is reported as exhausted three times |
| `QuotaWitnesses.LostQuotaReport` | lib/gtp5g/src/gtpu/encap.c:627-634 | a run from an empty session in which the FAR drops and neither this nor any later packet reports it |
| `SavedArrays.FreesTwiceIff` | lib/gtp5g/src/pfcp/urr.c:119-172 | in every run a reverse action releases the saved arrays a second time if and only if its exhaustion had nothing to save and an earlier one had |
| `SavedArrays.FreedTwice` | lib/gtp5g/src/pfcp/urr.c:119-172 | a run from an empty session in which that happens |
| `Forwarding.HandlePacket` | lib/gtp5g/src/gtpu/encap.c:760-1010 | FAR action, gate, policing, measuring and passing on, on the policer and the usage engine, compute `Handle` |
| `Forwarding.PassedOnIff` | lib/gtp5g/src/gtpu/encap.c:735-905 | which packets are passed on and which buffered; a packet that is to be withheld is discarded only if it goes into another tunnel |
| `Forwarding.FirstPacketLeaves` | lib/gtp5g/src/gtpu/encap.c:834-901 | a packet that starts a URR is discarded if relayed and passed on if it leaves the tunnel |
| `Forwarding.MeasuredLength` | lib/gtp5g/src/gtpu/encap.c:985-1002 | a URR measures the whole length before QoS enforcement, and after it the length or nothing if the packet is red |
| `Forwarding.PathConforms` | lib/gtp5g/src/gtpu/encap.c:985-1008 | over every run of packets through a policed PDR, what is passed on and what a URR counts after QoS enforcement are bounded by the credit and the rate times the elapsed time |
| `Forwarding.QuotaEnforced` | lib/gtp5g/src/pfcp/urr.c:85-137 | over every run of packets, less than the quota and one packet of maximal length is passed on by a PDR that a URR with an unused total quota guards |
| `Forwarding.InstalledIsGuarded` | lib/gtp5g/src/pfcp/urr.c:107-117 | every installed PDR with a FAR is guarded by every URR it names unless one of them is without trigger |
| `Forwarding.DroppingPassesNothing` | lib/gtp5g/src/gtpu/encap.c:737-740 | while its FAR drops a PDR passes nothing on and its packets change nothing |
| `GtpHeader.Walk` | lib/gtp5g/src/gtpu/encap.c:296-336 | the walk terminates and on success ends within the packet at a zero next-type octet |
| `GtpHeader.WalkIff` | lib/gtp5g/src/gtpu/encap.c:296-336 | it ends at a position if and only if a well-formed chain of extension headers lies before it |
| `GtpHeader.WalkSkips` | lib/gtp5g/src/gtpu/encap.c:296-336 | every well-formed chain is stepped over completely |
| `GtpHeader.WalkFindsChain` | lib/gtp5g/src/gtpu/encap.c:296-336 | what is stepped over is a well-formed chain |
| `GtpHeader.Parse` | lib/gtp5g/src/gtpu/encap.c:236-337 | the reader for every byte string; all reads are of octets checked to be present |
| `GtpHeader.ParseIff` | lib/gtp5g/src/gtpu/encap.c:236-337 | what the reader makes of any datagram, by its octets: message with type, TEID and header length, echo request, or left to the application |
| `GtpHeader.PushHeader` | lib/gtp5g/src/gtpu/pktinfo.c:278-355 | the three pushes produce the header whose octets `HeaderOctets` states, in front of the payload |
| `GtpHeader.HeaderOctets` | lib/gtp5g/src/gtpu/pktinfo.c:278-355 | every octet of the header: version, protocol type, the E bit exactly with a QFI, the S bit exactly with sequence numbers; type, length, TEID, sequence number, next type, PDU type and QFI |
| `GtpHeader.ParseInvertsPush` | lib/gtp5g/src/gtpu/pktinfo.c:278-355 | reading back yields T-PDU, TEID and exactly the payload, for all parameters |
| `GtpHeader.LengthFieldIff` | lib/gtp5g/src/gtpu/pktinfo.c:327-351 | octets 2 and 3 give the number of octets behind the mandatory header if and only if that number fits 16 bits and QFI > 0 or sequence numbers are off |
| `HexText.TbcdInPlace` | internal/common/sidf/suci_deconcealing.go:363-380 | the in-place loops compute `Tbcd` |
| `HexText.SwapPairs` | internal/common/sidf/suci_deconcealing.go:369-372 | the loop swaps all pairs |
| `HexText.HexDecodeEncode` | internal/common/sidf/suci_concealment.go:63 | decoding undoes encoding |
| `HexText.HexEncodeDecode` | internal/common/sidf/suci_deconcealing.go:271 | encoding undoes decoding up to letter case |
| `HexText.HexDecodeIs` | internal/common/sidf/suci_deconcealing.go:246-249 | text decodes if and only if its length is even and all of it are hex digits, and then to the values of the digit pairs |
| `HexText.HexEncodeIs` | internal/common/sidf/suci_concealment.go:63 | two digits per octet, none of them a capital letter |
| `HexText.TbcdRoundTrip` | internal/common/sidf/suci_deconcealing.go:363-380 | numbers of odd and even length survive TBCD coding and transport |
| `HexText.TbcdOctets` | internal/common/sidf/suci_concealment.go:39 | the octets of a number: two digits each, the first in the low half, filler 15 behind an odd number of digits |
| `SuciText.SplitInvertsJoin` | internal/common/sidf/suci_concealment.go:141-151 | dash-free fields are recovered from the printed text |
| `SuciText.PrintParses` | internal/common/sidf/suci_deconcealing.go:88-107 | printed text parses if and only if all fields are well formed, and then to exactly those fields |
| `SuciText.JoinInvertsSplit` | internal/common/sidf/suci_deconcealing.go:66-72 | every text is its fields between dashes |
| `SuciText.ParseIff` | internal/common/sidf/suci_deconcealing.go:37-107 | which texts parse: the IMSI form with well-formed fields, the NAI form with any home network without line feeds, and nothing else |
| `SuciText.NaiParses` | internal/common/sidf/suci_deconcealing.go:48-107 | a SUCI of the NAI type keeps its home network whole, dashes included |
| `SuciText.TailIff` | internal/common/sidf/suci_deconcealing.go:57-65 | the form of routing indicator, scheme, key id and output |
| `SuciText.KeyIdIff` | internal/common/sidf/suci_deconcealing.go:61-63 | key ids are the numbers from 0 to 255, with three digits exactly above 99 |
| `Concealment.AnsiX963Kdf` | internal/common/sidf/suci_deconcealing.go:153-165 | the loop yields one digest per stated digest length, with a 32-bit big-endian counter, and enough key material for digest lengths up to 32 |
| `Concealment.KdfBlock` | internal/common/sidf/suci_deconcealing.go:153-165 | block i of the key material is the digest of shared secret, counter i + 1 and public key |
| `Concealment.OpenUndoesSeal` | internal/common/sidf/suci_deconcealing.go:167-184 | the MAC of a sealed text is accepted and the plaintext recovered; what is sealed is in `SealIff` |
| `SchemeOutput.SealIff` | internal/common/sidf/suci_concealment.go:44-63 | sealing produces exactly: the key, the plaintext xored with the AES-CTR key stream under the two halves of the first digest, and eight octets of the MAC of that under the second digest |
| `SchemeOutput.OpenIff` | internal/common/sidf/suci_deconcealing.go:167-184 | opening succeeds exactly on octets of that form, in particular with that MAC, and yields the plaintext |
| `Concealment.ProfileARoundTrip` | internal/common/sidf/suci_deconcealing.go:245-272 | profile A decryption undoes encryption for every MSIN and key pair; what is sent is in `SentA` |
| `Concealment.ProfileBRoundTrip` | internal/common/sidf/suci_deconcealing.go:274-309 | profile B decryption undoes encryption; what is sent is in `SentB` |
| `SchemeOutput.SentA` | internal/common/sidf/suci_concealment.go:20-64 | when profile A encryption succeeds, and every octet of what it sends |
| `SchemeOutput.SentB` | internal/common/sidf/suci_concealment.go:66-114 | the same for profile B, with the compressed point |
| `SchemeOutput.AcceptedA` | internal/common/sidf/suci_deconcealing.go:245-272 | profile A decryption yields a MSIN if and only if the input is the text of octets that conceal it under the agreed key, MAC included; it panics exactly if they conceal nothing |
| `SchemeOutput.AcceptedB` | internal/common/sidf/suci_deconcealing.go:274-309 | the same for profile B, with a compressed or an uncompressed point |
| `Concealment.UncompressedKeyAccepted` | internal/common/sidf/suci_deconcealing.go:207-227 | the uncompressed form of the ephemeral key gives the same result |
| `Concealment.ToSupiUndoesCipherSuci` | internal/common/sidf/suci_concealment.go:116-153 | deconcealment of every concealed identity returns it, for all three schemes; short identities are refused; what is sent is in `CipherSuciIs` |
| `SchemeOutput.CipherSuciIs` | internal/common/sidf/suci_concealment.go:116-153 | the text that is sent, for all arguments, and the errors |
| `SchemeOutput.ToSupiIff` | internal/common/sidf/suci_deconcealing.go:311-361 | an identity comes out if and only if the text is one already, or a SUCI of the IMSI type whose output reveals it under the home network key with the number and the scheme it names |
| `NasSecurity.EstimateIff` | test/aio5gc/msg/nas/codec/decoder.go:95-98 | the estimate is the sender's COUNT if and only if that is 0 to 255 ahead, wrap-around included |
| `NasSecurity.TrackCount` | internal/control_test_engine/ue/nas/dispatcher.go:74-78 | the overflow and sequence-number updates compute the estimate |
| `NasSecurity.UeSecurity.NasEncode` | internal/control_test_engine/ue/nas/message/nas_control/integrity-ciphering-nas.go:30-85 | the message is the protected form of the plaintext at the current COUNT, which then advances |
| `NasSecurity.ProtectedOctets` | internal/control_test_engine/ue/nas/message/nas_control/integrity-ciphering-nas.go:45-85 | the octets of a protected message: discriminator, header type, the MAC of what follows, the low octet of the COUNT, and the text, ciphered for the types 2 and 4 |
| `NasSecurity.CoreUe.Decode` | test/aio5gc/msg/nas/codec/decoder.go:41-136 | the receiver's code computes `DecodeSpec` and commits the COUNT only with a valid MAC |
| `NasSecurity.DecodeIs` | test/aio5gc/msg/nas/codec/decoder.go:41-136 | what the network does with any octets: what is rejected, deciphered and committed, by header type, MAC and length |
| `NasSecurity.DecodeUndoesEncode` | test/aio5gc/msg/nas/codec/decoder.go:52-135 | a genuine message in the window is verified, committed and returned in plain |
| `NasSecurity.WrongMacKeepsCount` | test/aio5gc/msg/nas/codec/decoder.go:107-134 | octets without the MAC of the estimated COUNT never move the network's COUNT and are never passed on as genuine or deciphered |
| `NasSecurity.GenuineAcceptedIff` | test/aio5gc/msg/nas/codec/decoder.go:95-120 | a genuine message passes the MAC check if and only if its COUNT is 0 to 255 ahead or its MAC coincides under the wrong COUNT |
| `NasSecurity.ReceiverStaysInSync` | test/aio5gc/msg/nas/codec/decoder.go:41-136 | over every plausible run, from every COUNT, with forgeries in between, the network holds the COUNT of the last genuine delivery, new or replayed, and has decoded it |
| `NasSecurity.CopyIs` | test/aio5gc/msg/nas/codec/decoder.go:73-134 | what the network does with any message of a context at any COUNT: accepted exactly in the window, a new-context one always measured from zero |
| `NasSecurity.CountIsTracked` | test/aio5gc/msg/nas/codec/decoder.go:41-136 | over every run of copies of the sender's messages and junk in any order, the network's COUNT is the one the windows give |
| `NasSecurity.HoldsNewest` | test/aio5gc/msg/nas/codec/decoder.go:95-134 | without the replay of an older new-context message the network holds the newest of the sender's COUNTs it has accepted, and never moves back |
| `NasSecurity.ReplayLaw` | test/aio5gc/msg/nas/codec/decoder.go:83-134 | after every such run an accepted message passes again if and only if its COUNT is the last one, or it is new-context with COUNT at most 255, or its MAC coincides; it moves the COUNT, and back, if and only if it is new-context below the last COUNT |
| `NasSecurity.PassesIff` | test/aio5gc/msg/nas/codec/decoder.go:41-136 | after every run, with or without rollbacks, a message of the context passes if and only if it is in the window of the COUNT the run has led to, or its MAC coincides |
| `NasSecurity.RollbackReplays` | test/aio5gc/msg/nas/codec/decoder.go:83-134 | three deliveries after which an ordinary message passes a second time |
| `NasSecurity.RollbackDropsNext` | test/aio5gc/msg/nas/codec/decoder.go:83-134 | three deliveries after which the network is back at COUNT 0 and drops the sender's next message |
| `NasSecurity.UeSecurity.DispatchNas` | internal/control_test_engine/ue/nas/dispatcher.go:31-125 | the UE's code computes `Dispatch` for every message and every content, with the COUNT, the keys and the panics in their order |
| `NasDownlink.DispatchIs` | internal/control_test_engine/ue/nas/dispatcher.go:31-125 | what the UE does with any message that has a header: a plain one is passed on whole and changes nothing; which of the others are passed on and how, and when it panics |
| `NasDownlink.DroppedMoves` | internal/control_test_engine/ue/nas/dispatcher.go:39-122 | what a dropped message of any header type does: a SECURITY MODE COMMAND sets the COUNT to zero and the keys to those it selects, the reserved type nothing, all others the COUNT to the estimate; and exactly when the COUNT stays |
| `NasDownlink.DownlinkAcceptedIff` | internal/control_test_engine/ue/nas/dispatcher.go:39-122 | a genuine message of any header type is accepted if and only if it is in the window (a SECURITY MODE COMMAND: COUNT 0) or its MAC coincides; in the window plaintext and COUNT are recovered |
| `NasDownlink.OtherKeysIff` | internal/control_test_engine/ue/nas/dispatcher.go:95-122 | a message protected with other keys than the UE checks it with passes exactly when the MACs coincide |
| `NasDownlink.ForgedDownlinkMovesWindow` | internal/control_test_engine/ue/nas/dispatcher.go:39-122 | after any dropped message, exactly which genuine messages of any header type are accepted |
| `NasDownlink.ForgeryBreaksDownlink` | internal/control_test_engine/ue/nas/dispatcher.go:74-122 | one forged message makes the UE drop the next genuine one, which it would have accepted |
| `NasDownlink.ForgedCommandRollsBack` | internal/control_test_engine/ue/nas/dispatcher.go:95-122 | a forged SECURITY MODE COMMAND moves the COUNT back to zero, and an old message passes again |
| `NasDownlink.ForgedCommandChangesKeys` | internal/control_test_engine/ue/nas/dispatcher.go:95-122 | a forged SECURITY MODE COMMAND leaves the UE with other keys, and the next genuine message is dropped |
| `NasDownlink.DownlinkRunIs` | internal/control_test_engine/ue/nas/dispatcher.go:39-122 | COUNT and keys after every run of genuine, replayed and forged messages, in closed form: the steps from sequence number to sequence number since the last SECURITY MODE COMMAND |
| `NasDownlink.TravelBound` | internal/control_test_engine/ue/nas/dispatcher.go:74-78 | n messages move the COUNT by at most 255 n |
| `NasDownlink.AcceptedAfterRun` | internal/control_test_engine/ue/nas/dispatcher.go:39-122 | which genuine messages are accepted after every run |
| `GnbPools.GnbContext.constructor` | internal/control_test_engine/gnb/context/context.go:66-80 | a new gNB has empty, valid pools |
| `GnbPools.GnbContext.NewGnbUe` | internal/control_test_engine/gnb/context/context.go:82-123 | a new UE takes over the PacketRusher id and gets a RAN id that is unused until the 64-bit generator comes round; the pools stay valid |
| `GnbPools.GnbContext.CreateUeContext` | internal/control_test_engine/gnb/context/ue.go:64-76 | sets the allowed slices of a UE; the pools stay valid |
| `GnbPools.GnbContext.GetUeTeid` | internal/control_test_engine/gnb/context/context.go:269-282 | TEIDs are new until the 32-bit generator comes round |
| `GnbPools.GnbContext.SetupPduSession` | internal/control_test_engine/gnb/context/ue.go:83-112 | a session is created exactly when slot and slice allow it, and an id outside 1 to 16 panics; no two sessions share a downlink TEID |
| `GnbPools.GnbContext.DeletePduSession` | internal/control_test_engine/gnb/context/ue.go:130-138 | only the slot changes, an id outside 1 to 16 panics; the pools stay valid |
| `GnbPools.GnbContext.DeleteGnbUe` | internal/control_test_engine/gnb/context/context.go:141-155 | only the UE's own bindings go, a newer UE with the same PacketRusher id stays bound; what still leads to the UE are exactly the TEIDs issued to it for refused and deleted sessions |
| `GnbPools.DeletedUeIsFound` | internal/control_test_engine/gnb/context/context.go:141-179 | a TEID of a refused session that still leads to a deleted UE |
| `GnbPools.GnbContext.GetGnbUe` | internal/control_test_engine/gnb/context/context.go:157-163 | the UE found carries the RAN id asked for |
| `GnbPools.GnbContext.GetGnbUeByPrUeId` | internal/control_test_engine/gnb/context/context.go:165-171 | the UE found is the one stored under its own RAN id |
| `GnbPools.GnbContext.GetGnbUeByTeid` | internal/control_test_engine/gnb/context/context.go:173-179 | the TEID of a live session leads to its owner |
| `GnbPools.GnbUe.IsWantedNssai` | internal/control_test_engine/gnb/context/ue.go:161-171 | true exactly when the slice is among the allowed ones |

## Left out

- RCU, spinlocks, goroutines and channels: every command, packet or handler is one atomic step; so the locks that a failed PDR replace keeps are not modelled.
- Failed memory allocations and failing netlink transmission; a report counts as sent when it is produced.
- The state of the kernel after a fault: a faulting command ends the run.
- BAR rules, the choice of QFI and gate bits of a PDR, header creation and end markers of a FAR: easy field updates; whether the gate is open is an input of `Forwarding`.
- Optional sub-attributes of SDF filters and volume limits: a command carries the resulting filter or limit.
- Usage.UsageEngine.UpdateAndReport: that arrays are overrun is stated, not what the overrun damages; so in `ExhaustAction` and `FillUrr`.
- Forwarding.QuotaEnforced: the run consists of packets of one PDR, shorter than 65536 octets, without commands in between.
- Forwarding.HandlePacket: T-PDUs only; routing, header removal and transmission, and failures of these, are not part of the model.
- `concat_bit_rate`: only its result enters, as the rate of a policer.
- QuotaLaw.VolquSentIff: volumes sum up below 2^64 between two grants, where the consumed counter does not wrap; so in `QuotaLaw.OnceAlwaysIff`, whose limits stay below 2^64 - 2.
- QuotaLaw.ConsumedIs: PDRs name distinct URRs, as `MergeDistinct` proves of the commands; so in `Reports.ReportsFitIff` and `Thresholds`.
- Dropping.DropsForGoodIff: FAR and PDR commands, which may set any action, end the run; PDR ids stand for one FAR each.
- NasSecurity.ReplayLaw: one security context, whose COUNT does not come round; MACs of junk and of messages at a wrong COUNT do not verify by chance during the run.
- Usage.UsageEngine: links and FAR actions of the session are inputs here; `Links`, `RuleEngine` and `QuotaLinks` prove how they come about.
- Xn handover, which copies sessions of another gNB, is not part of the model.
- NasSecurity.UeSecurity.DispatchNas: key derivation and message handling after the security checks are not part of the model; what the library makes of a message under two octets and of a payload is a parameter.
- Downlink encoding by the mock AMF, which overwrites the uplink COUNT through `SetDLCount`, is not part of the model.
- Cryptographic strength: primitives are parameters with algebraic laws.
- NGAP, SCTP, netlink attribute parsing, routing, configuration, command line, monitoring scripts and the mock 5GC: plumbing or library code.
