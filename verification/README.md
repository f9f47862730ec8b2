# Verification of ipfw-go

`ipfw-go` parses rulesets of FreeBSD's `ipfw(8)` and runs packets against them. This
project models its hard core in Dafny and proves that the fast code means what a
simple reading of a ruleset means.

- **The machine** (`Semantics`, `PacketFields`, `Machine`, `Meaning`, `Verdicts`, `Lookups`). `Semantics` is a
  one-pass reference evaluation of a rule, with a log of the rules its table lookups
  named, and of a run over rules. `Machine.CheckTrace` is the program counter loop of
  the VM with its flattened scans, its scan per address family, its lazily read packet
  fields and its second scan for `skipto tablearg`. It is proved to produce the same
  verdict, the same terminated flag and the same traced events, for every program,
  registry, context and packet. `Meaning` proves what the evaluation order comes to:
  patterns, negations, or-blocks, dropped comments and forward jumps. `Verdicts` and
  `Lookups` say the same once more without the reference evaluation: which event follows
  which and when a check ends, what every condition asks of the packet, and which lookups
  are made in which order.
- **The builder** (`Builder`, `Build`, `Links`). The class keeps arenas of tokens, wrapping rule
  numbers and pending jumps. Its invariant ties them to the history of instructions and
  labels. What a build finishes is the ruleset rule by rule, its jumps searched among its
  own labels and numbers, with nothing missing but comments that decide nothing. Where
  no or-block is interrupted, checking a packet is evaluating the ruleset as written.
  `Links` says what a history comes to entry by entry: numbers, jumps, bodies, refusals.
- **The glob** (`Glob`, `SpelledMasks`). The mask scan with one star to come back to
  decides exactly the recursive matching relation over the tokens of the mask. Every
  spelling of some tokens is read as those tokens, every mask is such a spelling, and
  tokens match the names that can be cut into one part for each.
- **The prefix table** (`Tables`). The grouped index answers as the plain list of its
  entries does, and the plain list gives the most specific entry.
- **Raw packets** (`RawPackets`, `Headers`). The walk over IPv6 extension headers, the
  fast paths of the accessors and the builders, as section 4 of RFC 8200, section 2.2 of
  RFC 4302 and section 3.1 of RFC 791 lay the headers out. `Headers` writes packets down
  byte by byte, measuring headers by their formats alone, and proves what is read of them.
- **Sections of the grammar** (`Numbers`, `Lex`, `Keywords`, `Ports`, `Targets`,
  `TargetsRead`, `Options`, `OptionPlaces`). The parsers are proved against functions of
  the text, printing and parsing are inverse both ways, and every option list the
  parser emits has the places the formatter checks and the machine scans rely on.
- **The spellings** (`SpelledGroups`, `SpelledPorts`, `SpelledTargets`, `SpelledOptions`,
  `SpelledLists`). What can be written for every port, address, keyword, group and list,
  without the functions of the parsers: a text so spelled is read as what it spells, and
  a printed text is the one spelling the formatter chooses.
- **The resolver** (`Resolver`). Names become networks without changing what a side
  means, names of no network included, and options move nowhere.
- **The whole way** (`Ruleset`). Options that were parsed and resolved have the blocks
  that a build relies on, so that the verdict on a packet is that of the rules as written.

Text is a sequence of characters standing for bytes. Networks, registries, the matcher
of custom options, name resolvers, option hooks and the readers of option arguments
belong to others, so they are uninterpreted functions here. The state a parser hands
its tokens to is a `Sink`, which may refuse any of them, depending on those before it.

Four statements of the repository hold only with a condition, which is proved exactly
and shown to be needed:

- The formatter accepts a list member that starts with a vertical tab, and the parser
  skips that byte after a comma. `Targets.PrintedTargetsReadBackIff` says that a list
  reads back exactly when no later member starts with one, and
  `Targets.TabsAreNeeded` shows one that does not.
- The formatter writes a dash after a destination port whose name is an option keyword,
  so that the section stays one of ports. The range from `src` to `port`, and two more
  like it, is written as the keyword itself. `Ports.MistakenForOption` says that a
  destination section is mistaken for an option exactly when it is one such range, and
  `Ports.SomeRangeIsMistaken` shows one.
- Dropping a comment is sound when no or-block is interrupted.
  `Meaning.ContiguityIsNeeded` shows that it is not sound otherwise.
- Numbers of blocks and patterns have sixteen bits and wrap. `OptionPlaces.ContiguousIff`,
  `OptionPlaces.WellPlacedIff` and `Resolver.PatternedIff` say that what is parsed is
  contiguous exactly when no number went down, and `Ruleset.RulesetIsBlocked` says so of
  a whole ruleset.

## Model

| member | source | states |
|---|---|---|
| Machine.CheckTrace | vm/vm.go:807-842 | The verdict, the terminated flag and the traced events are those of the reference run of the program, for every program, registry, context and packet; and event by event, a matching pass, deny or reset is the last one and gives the verdict, any other leads to the next rule, its jump or the last name of its log, and the check runs out only past the last rule. |
| Machine.MatchRule | vm/vm.go:992-1050 | A rule matches exactly when its body holds read straight off the packet, and then its options yield the last name of their log; the lazily read fields stay right. |
| Machine.MatchOptions | vm/vm.go:1080-1128 | The flattened scan, its in-place port branch included, holds exactly when the block by block evaluation does, and yields the target of the last lookup that found an entry. |
| Machine.MatchOption | vm/vm.go:1142-1189 | One option holds as its condition on the packet read afresh says, and yields the target of its lookup. |
| Machine.MatchTargets4 | vm/vm.go:1317-1349 | The scan for an address that is not IPv6 agrees with the evaluation of the side. |
| Machine.MatchTargets6 | vm/vm.go:1352-1383 | The scan for an IPv6 address agrees with the evaluation of the side. |
| Machine.LookupTargets | vm/vm.go:1456-1490 | The second scan finds the last name the first scan's lookups left, stopping where it stopped, an entry that names no rule replacing an earlier one. |
| Machine.AddressTarget | vm/vm.go:1438-1447 | Looking up the destination first gives the last name of the lookups of the source and then the destination. |
| Machine.WholeLog | vm/vm.go:826-833 | The last name of a whole rule is that of its options, and that of its addresses exactly when the options named none. |
| Machine.LookupTable | vm/vm.go:1410-1417 | A lookup finds the entry of the table holding the address, of the value asked for, numbers compared as numbers. |
| Verdicts.RunTakesCourse | vm/vm.go:807-842 | The reference run takes a course of events in which only a matching pass, deny or reset ends it, and every index is the one the event before leads to. |
| Verdicts.BodyMeans | vm/vm.go:992-1050 | A body holds exactly when the packet meets its protocols, sides, ports and every block of its options, each said of the packet. |
| Verdicts.OptionMeans | vm/vm.go:1142-1189 | What every kind of option asks of the packet, bit by bit for flags and types, and what a table lookup of an interface names. |
| Verdicts.MemberMeans | vm/vm.go:1390-1417 | When an address meets each kind of member, and that a lookup logs the rule its entry names. |
| Verdicts.TableMeans | vm/vm.go:1410-1417 | A lookup finds an entry of the table named before the first comma and of the value behind it, a colon aside, numbers compared as numbers. |
| Verdicts.NamedMeans | vm/vm.go:1235-1264 | A value names the lowest rule whose number reaches it, or the one below the label it is, or none. |
| Lookups.SideLooksUp | vm/vm.go:1303-1349 | The lookups of a side are those of the members it reaches, in order: before them no other pattern holds and no member of their own does. |
| Lookups.OptionsLookUp | vm/vm.go:1070-1128 | The lookups of options that hold are those of the options that evaluation reaches, in order. |
| Lookups.BodyLooksUp | vm/vm.go:826-833 | A matching rule looks up its sources, its destinations and then its options. |
| PacketFields.Fields.ReadPorts | vm/vm.go:921-939 | Whenever it is called, the fields hold what a direct gated read of the ports gives, and all other groups stay right. |
| PacketFields.Fields.ReadFlags | vm/vm.go:943-958 | Whenever it is called, the fields hold what a direct gated read of the TCP flags gives. |
| PacketFields.Fields.ReadICMP | vm/vm.go:962-977 | Whenever it is called, the fields hold what a direct gated read of the ICMP type gives. |
| Meaning.SideMeaning | vm/vm.go:1303-1349 | A side holds exactly when some pattern does: the address is in one of its members, or in none when it is negated. |
| Meaning.PortsMeaning | vm/vm.go:1056-1063 | Under one negation a port list holds exactly when some range holds the port, negation aside. |
| Meaning.OptionsMeaning | vm/vm.go:1070-1128 | Options of contiguous blocks and patterns under one negation each hold exactly when every block has a pattern that does. |
| Meaning.DroppingCommentsIsSound | vm/vm.go:270-289 | Dropping idle comments changes neither whether the options hold nor the log of their lookups. |
| Meaning.ContiguityIsNeeded | vm/vm.go:270-289 | Without contiguous blocks there is a list whose meaning the dropping changes. |
| Meaning.PathGoesForward | vm/vm.go:798-840 | The rules a check evaluates have strictly increasing indexes, whatever the tables hold. |
| Meaning.RunFollowsPath | vm/vm.go:807-842 | The traced events of a run are those of the rules on its path. |
| Meaning.RunIsShort | vm/vm.go:807-842 | A check evaluates each rule at most once. |
| Builder.DropIdle | vm/vm.go:276-289 | The compaction in place tests the original neighbours and keeps exactly the options that are not idle comments. |
| Builder.CompactingKeeps | vm/vm.go:276-289 | Moving an option down leaves the neighbours of those to come as they were. |
| Builder.RuleBuilder.OnToken | vm/vm.go:304-343 | A token is appended to the open rule and to no other, or refused. |
| Builder.RuleBuilder.Drop | vm/vm.go:253-268 | The tokens of the open rule are abandoned and those of closed rules stay. |
| Builder.RuleBuilder.DropComments | vm/vm.go:276-289 | Only the options of the open rule are compacted. |
| Builder.RuleBuilder.Add | vm/vm.go:555-592 | An instruction becomes a rule over exactly its own tokens, numbered above every rule before it, its jump falling through; it is refused exactly when its number does not go up in 32 bits or its action cannot run. |
| Builder.RuleBuilder.TakeNumber | vm/vm.go:556-567 | The wrapping counter refuses exactly the numbers that do not go up. |
| Builder.RuleBuilder.Label | vm/vm.go:596-600 | Every waiting jump to the label goes to the next rule, so that each label jump goes to the rule after the first later declaration. |
| Builder.RuleBuilder.LinkNumber | vm/vm.go:696-702 | One numeric jump leads to the lowest rule that is past its own and reaches its target, or is remembered. |
| Builder.RuleBuilder.LinkNumbers | vm/vm.go:695-704 | In every finished build a numeric jump leads to the lowest later rule whose number reaches its target and a label jump below the first later declaration, said of the numbers and entries themselves, or falls through and is remembered. |
| Builder.TargetIsLanding | vm/vm.go:696-702 | What the search for a numeric target gives is the least later index whose number reaches it, and nothing exactly when none does. |
| Builder.LabelIsLanding | vm/vm.go:596-600 | What a label jump gives is the number of instructions above the first later declaration, and nothing exactly when there is none. |
| Builder.LinkedLands | vm/vm.go:695-704 | Every linked rule lands so, whichever kind of jump it has. |
| Links.JumpLeads | vm/vm.go:695-704 | The jump of every rule of a ruleset as written, by its numbers and declarations. |
| Links.DanglingIs | vm/vm.go:708-717 | A jump dangles exactly when no later rule reaches its number or no later declaration has its label. |
| Links.RuleIsInstruction | vm/vm.go:555-592 | A rule has the record, the action and the tokens of the instruction with as many others above it. |
| Links.LineJoins | vm/vm.go:445-478 | A line adds its instruction or its label to the history, and any other line nothing. |
| Links.RuleIsNumbered | vm/vm.go:555-567 | A rule has its own number, or one more than the rule above it. |
| Links.LabelIsNamed | vm/vm.go:596-600 | A label stands for the rule below its last declaration. |
| Links.InstructionIsRefused | vm/vm.go:555-572 | An instruction is refused exactly when its number does not go up within 32 bits or its action cannot run. |
| Links.LineIsRefused | vm/vm.go:445-478 | Why a line is refused: for its first bad token, else for its record. |
| Links.TokenIsRefused | vm/vm.go:304-343 | The lookups and options a build does not take. |
| Links.TokenJoins | vm/vm.go:304-343 | Each kind of token goes to its own part of the body, behind those before it. |
| Links.KeptStay | vm/vm.go:276-289 | All options stay in order but comments that are not negated and alone in their block. |
| Builder.RuleBuilder.Unresolved | vm/vm.go:708-717 | The record returned is that of the lowest rule whose jump nothing satisfies, whatever the order of the labels, and none exactly when there is none. |
| Builder.Lowest | vm/vm.go:718-730 | The smallest of some indexes and a first one that may be absent. |
| Builder.LastIsLargest | vm/vm.go:555-591 | Rule numbers go up, so there are fewer than 2^32 rules and no index of a rule is truncated. |
| Builder.AppendedLaid | vm/vm.go:555-592 | Closing a rule keeps every rule's runs over its own tokens, abutting those of the next. |
| Builder.RelinkedLinks | vm/vm.go:596-600 | Linking the jumps that wait for a label keeps every other jump and leaves none waiting for it. |
| Numbers.SearchFrom | vm/vm.go:224-229 | The binary search gives the lowest index whose number reaches the wanted one, the length when none does. |
| Numbers.ReadTableNumber | vm/vm.go:1251-1264 | A table value is a number exactly when it is at most ten digits of a 32-bit value. |
| Build.Build | vm/vm.go:431-480 | A build fails at the first refused line or at the first jump nothing satisfies, and otherwise gives a machine that means its ruleset. |
| Build.ReadLine | vm/vm.go:445-478 | A line is refused exactly for its first refused token or its record, and otherwise the builder stands for one line more. |
| Build.BuiltIsKept | vm/vm.go:431-480 | Every finished program is its ruleset without idle comments: records, actions, jumps and bodies, rule by rule. |
| Build.KeptMeansSource | vm/vm.go:270-289 | Those comments change no run, when no or-block is interrupted. |
| Build.BuiltMeansSource | vm/vm.go:431-480 | Running a built program is running its ruleset without idle comments, and as written when no or-block is interrupted, jumps searched in its own labels and numbers. |
| Build.SourceIsForward | vm/vm.go:392-394 | Every static jump of a ruleset as written goes forward. |
| Build.FinishedIsWellFormed | vm/vm.go:574-582 | Every static jump of a built program goes forward and lands at most at its end, and every run of a rule is in its arena. |
| Build.DanglingIsUnlinked | vm/vm.go:708-717 | A jump of the program is unlinked exactly when nothing in the ruleset as written satisfies it. |
| Build.CheckPacket | vm/vm.go:807-842 | The verdict of a built machine is that of its ruleset without idle comments, and as written when no or-block is interrupted. |
| Ruleset.LineIsBlocked | opt.go:94-207 | The options of a line, parsed and resolved, have contiguous blocks exactly when no block number wrapped. |
| Ruleset.RulesetIsBlocked | opt.go:692-697 | In a ruleset that was parsed and resolved no or-block is interrupted exactly when no rule has so many that their numbers wrap. |
| Ruleset.CheckRuleset | vm/vm.go:431-480 | Building a parsed and resolved ruleset and checking a packet gives the failure of the build or the verdict of the rules as written, unless block numbers wrap. |
| Glob.MatchIfMask | ifmask.go:10-77 | The scan decides exactly whether the tokens of the mask match the name. |
| Glob.RangeMatch | ifmask.go:89-140 | The class scan reports whether the class takes the byte and where it ends, and malformed exactly when the class never closes, whatever the byte. |
| Glob.LaterStarSubsumes | ifmask.go:22-25 | Coming back to the last star only loses no match. |
| Glob.LaterBracketsAreLiteral | ifmask.go:26-40 | Once a class does not close, no later bracket that starts a token opens one that does. |
| SpelledMasks.SpelledMask | ifmask.go:10-140 | Tokens spelled in any way, classes under either sign, with escapes and ranges or without, are read as those tokens. |
| SpelledMasks.MaskIsSpelled | ifmask.go:10-140 | Every mask is a spelling of the tokens it is read as. |
| SpelledMasks.NoClassOpens | ifmask.go:89-140 | A bracket opens a class exactly when the text behind it starts with one. |
| SpelledMasks.ClassReads | ifmask.go:89-140 | A spelled class is read as its members and its sign, up to its closing bracket. |
| SpelledMasks.MaskTakes | ifmask.go:10-77 | A spelled mask takes the names that can be cut into one part for each token, a star any bytes and any other token one. |
| Tables.PrefixTable.Add | vm/tables.go:141-156 | The entry is added to the list the index stands for, groups staying sorted, complete and of equal lengths. |
| Tables.PrefixTable.Lookup | vm/tables.go:114-121 | The answer is that of the plain list of all entries added. |
| Tables.BestIsMostSpecific | vm/tables.go:112-121 | The plain list gives the last added entry of least host bits among those holding the address, and none exactly when none does. |
| Tables.BestIsFirstGroup | vm/tables.go:92-121 | The first group that holds the address has the answer. |
| Tables.LastHolding | vm/tables.go:130-138 | The last network holding the address. |
| RawPackets.Walk | vm/packet.go:427-456 | The walk moves on by whole headers, stops at an upper layer or a fragment, and the field it reports names the protocol it reports. |
| RawPackets.ComputeLayout | vm/packet.go:427-456 | The loop over the headers gives the walk. |
| RawPackets.IsExtensionHeader | vm/packet.go:402-404 | The bit test agrees with the list of extension headers. |
| RawPackets.Fields6 | vm/packet.go:322-393 | The fast paths agree with the whole walk, and flags present imply ports present imply a type present. |
| RawPackets.Fields4 | vm/packet.go:183-240 | Flags present imply ports present imply a type present. |
| Headers.UpperLayerIsFound | vm/packet.go:427-456 | Over a chain of headers written as their formats say, the layout names the upper layer, the byte that names it, and 40 plus the sizes as its index. |
| Headers.PieceStopsTheWalk | vm/packet.go:427-456 | A fragment header with an offset ends the walk behind it, whatever follows. |
| Headers.CutOffIsAbsent | vm/packet.go:427-456 | A packet that ends before a header tells its length has no upper layer. |
| Headers.EveryPacketIsAChain | vm/packet.go:427-456 | The bytes of every packet are such a chain, ending for one of those three reasons. |
| Headers.ShortPacket | vm/packet.go:427-456 | A packet shorter than the fixed header has no extension headers. |
| Headers.IPv6Reads | vm/packet.go:322-393 | The accessors of an IPv6 packet written field by field return the fields. |
| Headers.IPv4Reads | vm/packet.go:183-240 | The accessors of an IPv4 packet written field by field return the fields, its options skipped. |
| RawPackets.RenamingKeepsWalk | vm/packet.go:303-314 | Naming another upper layer keeps the walk over any chain of headers. |
| RawPackets.WithProtocol6 | vm/packet.go:303-314 | Only the field naming the upper layer changes, and the packet is padded with zeros. |
| RawPackets.WithTCP6 | vm/packet.go:264-269 | The accessors return the ports and flags written, over any chain of headers, which stay as they were. |
| RawPackets.WithUDP6 | vm/packet.go:272-276 | The accessors return the ports written and the flags there were. |
| RawPackets.WithICMP6 | vm/packet.go:279-283 | The accessors return the type and code written. |
| RawPackets.InsertionShiftsWalk | vm/packet.go:288-299 | Past an inserted header the walk is the same, eight bytes on. |
| RawPackets.InsertionKeepsFields | vm/packet.go:288-299 | An inserted fragment header of offset zero shifts the whole walk and changes no accessor. |
| RawPackets.WithFragmentOffset6 | vm/packet.go:288-299 | An inserted header of zero offset changes no accessor, and one of another offset ends the walk at the old upper layer; where a fragment header stood, its flags stay and the walk ends there or goes on over the headers behind it, every accessor being read there. |
| RawPackets.Refragment | vm/packet.go:288-299 | Another offset in a fragment header decides nothing but whether the walk goes on behind it. |
| RawPackets.WithTCP4 | vm/packet.go:138-143 | The accessors return the ports and flags written, the IP header staying as it was. |
| RawPackets.WithUDP4 | vm/packet.go:146-150 | The accessors return the ports written and the flags there were. |
| RawPackets.WithICMP4 | vm/packet.go:153-157 | The accessors return the type and code written. |
| RawPackets.WithFragmentOffset4 | vm/packet.go:161-166 | The offset is written below the flags, and every other accessor stays. |
| RawPackets.NewPacket6 | vm/packet.go:251-261 | The accessors of a new packet return its addresses, no next header and no fragment. |
| RawPackets.NewPacket4 | vm/packet.go:122-132 | The accessors of a new packet return its addresses and no fragment. |
| Lex.TakeWhile | lex.go:99-105 | A text is cut where the class of bytes first fails. |
| Lex.SkipCommaSpace | lex.go:131-142 | The spaces after a comma are skipped, vertical tabs included. |
| Lex.SeparatorGoesOn | lex.go:275-300 | A group goes on after spaces and a whole separator, `or` or the alias of its position. |
| Lex.GoesOnAfterSeparator | lex.go:275-300 | Nothing but a whole separator makes a group go on. |
| Numbers.ReadUint | lex.go:219-234 | A number is read exactly when the digits at the front spell at most the maximum, without a wrap. |
| Keywords.StartsOptionIff | opt.go:252-303 | The dispatch on the first byte finds exactly the complete keywords and comments. |
| Ports.ReadPort | port.go:121-148 | The scan with its escape flag reads the longest name, a number only when it fits, and points at a bad escape. |
| Ports.NameEndOf | port.go:121-148 | A name followed by what ends it is read up to its end. |
| Ports.NameEndIs | port.go:121-148 | What is read is a name followed by what ends it. |
| Ports.ParsePorts | port.go:58-78 | The ranges reach the state one by one, those before a failure too, and a failure returns the text untouched. |
| Ports.IsPortNameText | format.go:756-775 | The formatter's scan accepts exactly the names that are no plain number. |
| Ports.AppendPortMatch | format.go:710-723 | A range is appended, or the part of it before the first error. |
| Ports.AppendPorts | format.go:681-701 | A section is appended range by range, or the part of it before the first error. |
| Ports.PrintedPortsReadBack | format.go:681-723 | Printing and then parsing a port section gives the same ranges and leaves the rest. |
| Ports.ReadPortsPrintAndReadBack | port.go:58-78 | Whatever a section reads as, up to its end or a failure, prints on either side and reads back the same. |
| Ports.NeverNotNorTo | format.go:725-731 | The negation and the `to` of the grammar are never read from a printed list. |
| Ports.MistakenForOption | format.go:725-731 | A printed destination section starts an option exactly when it is one of three ranges whose text is a keyword. |
| Ports.SomeRangeIsMistaken | format.go:725-731 | The range from `src` to `port` is printed as an option keyword. |
| SpelledGroups.GroupGoesOn | lex.go:275-300 | Behind an element in braces, a separator with white space behind it leads to the next one. |
| SpelledGroups.GroupWantsOr | lex.go:275-300 | Anything behind an element in braces but a separator or the brace is refused. |
| SpelledPorts.PortIsRead | port.go:121-148 | A port is read up to what ends it: a number when its digits are worth at most 65535, a name otherwise. |
| SpelledPorts.EscapeIsRefused | port.go:121-148 | A backslash before anything but a dash is refused where it stands. |
| SpelledPorts.SectionIsRead | port.go:58-107 | A list of ranges, spaced and negated in any way, reaches the state range by range up to the first it refuses. |
| SpelledPorts.PrintedPortsAre | format.go:681-731 | The printed section is the ranges with bare commas and no leading zeros, equal ends written once unless the first would read as a word. |
| SpelledPorts.PortIsRefused | format.go:740-775 | A port is not printed exactly when it has a name and a number, or a name that is no text of a port or denotes a number. |
| SpelledPorts.RangeBreaks | format.go:710-723 | What is written of a range that is not printed, and its error. |
| SpelledPorts.SectionIsRefused | format.go:681-723 | A section is not printed when negations differ or at its first unsound range, and what is written before that. |
| Targets.ParseTargetElement | target.go:88-134 | The members of a list reach the state in order, under the negation and pattern of the element. |
| Targets.ParseTargets | target.go:68-84 | A section is read element by element, the pattern wrapping at sixteen bits, and a failure returns the text untouched. |
| Targets.IsHostnameText | target.go:324-338 | The scan accepts exactly the texts of hostname bytes with a dot and a letter. |
| Targets.PrintedShape | format.go:599-647 | A printed target classifies back as the same kind and text. |
| Targets.TableToken | target.go:182-189 | A lookup with a value is read as one token, whatever commas and braces the value holds. |
| Targets.AppendLink | format.go:552-577 | What stands before a target is appended, or the first of its conflicts with the target that heads its pattern returned. |
| Targets.AppendTargets | format.go:539-590 | A section is appended target by target, braced when there are several patterns, or the part of it before the first error. |
| Targets.PrintedTargetsReadBackIff | format.go:539-590 | Printing and then parsing a section is the identity and leaves the rest, exactly when no later list member starts with a vertical tab. |
| Targets.TabsAreNeeded | lex.go:131-142 | A list the formatter accepts and its own text does not give back. |
| SpelledTargets.SpelledIsClassified | target.go:197-287 | Every spelling of an address, quoted hostnames and lookups with values included, is classified as its kind and text. |
| SpelledTargets.OtherTokens | target.go:197-233 | Any other token is custom text. |
| SpelledTargets.BadTokens | target.go:197-287 | The tokens that are no address, and what is said of them. |
| SpelledTargets.BadLookups | target.go:240-256 | What a closed lookup has to hold, and the first thing it lacks. |
| SpelledTargets.ElementIsRead | target.go:88-134 | An element of one address or a list, spaced and negated in any way, reaches the state member by member up to the first it refuses. |
| SpelledTargets.NotAlone | target.go:138-150 | A negation with no address behind it is refused where that would stand. |
| SpelledTargets.BadElement | target.go:96-103 | A token that is no address refuses its element, where the classifier says. |
| SpelledTargets.MemberIsRefused | target.go:110-134 | A member of another family, or of a kind no list has, is refused where it starts. |
| SpelledTargets.SectionIsRead | target.go:68-84 | A section of one element has pattern zero. |
| SpelledTargets.GroupSectionIsRead | target.go:68-84 | A section in braces has a pattern for each element, counted from zero. |
| SpelledTargets.PrintedTargetsAre | format.go:539-590 | The printed section, its commas, separators, negations and braces. |
| SpelledTargets.AddressIsPrinted | format.go:599-647 | Whatever can be spelled without a number sign is printed. |
| SpelledTargets.AddressIsRefused | format.go:599-647 | What is not printed cannot be spelled without one, and the error. |
| SpelledTargets.LinkIsRefused | format.go:552-577 | When a target cannot stand behind another, and the error. |
| SpelledTargets.SectionIsRefused | format.go:539-590 | A section is not printed at the first conflict or unsound target, and what is written before that. |
| TargetsRead.ReadTargetsPrintAndReadBack | target.go:68-134 | Whatever a section reads as prints exactly when no text holds a hash sign, and then reads back the same. |
| Options.NextPlace | opt.go:136-138 | The next pattern wraps within its sixteen bits and stays in its block and braces. |
| Options.OptionContext.Validate | opt.go:168-180 | An option that creates state is refused in braces and after another one. |
| Options.ParsePortsOption | opt.go:604-633 | The ranges reach the state as members of one pattern. |
| Options.ParseOption | opt.go:211-248 | One option is read as the grammar says, its place and negation being the parser's. |
| Options.ParseOptionGroup | opt.go:184-207 | A group is one block, its members numbered as patterns. |
| Options.ParseOptions | opt.go:94-107 | The list is read to where the line ends or no space follows a block, the blocks numbered on. |
| Options.ParseTrailingComment | parser.go:584-597 | A comment right behind a rule is a block of its own, numbered on. |
| SpelledOptions.PlainIsTold | opt.go:636-672 | A keyword without an argument, an alias too, is told as its kind and no other wherever it ends. |
| SpelledOptions.ArgumentIsTold | opt.go:252-303 | A keyword with an argument, an alias too, is told as its kind and no other wherever it ends. |
| SpelledOptions.PlainIsRead | opt.go:211-248 | An option without an argument is handed over with its kind, negation and place, and leaves what follows. |
| SpelledOptions.ArgumentIsRead | opt.go:211-248 | An argument is read from right behind its keyword, and what was read has the kind, negation and place of the option. |
| SpelledOptions.PortsAreRead | opt.go:604-633 | The ranges of an option of ports are members of one pattern, handed over up to the first refused. |
| SpelledOptions.PortsAreWanted | opt.go:604-615 | Without white space behind it, or without a port, a keyword of ports is refused. |
| SpelledOptions.StateIsRefused | opt.go:168-180 | A second option that creates state, or one in braces, is refused before its argument. |
| SpelledOptions.OthersAreCustom | opt.go:327-357 | Any other text is the hook's, and unknown without one. |
| SpelledLists.GroupIsRead | opt.go:184-207 | A group spelled in any way is read as its options, a pattern for each member. |
| SpelledLists.OptionsAreRead | opt.go:94-107 | A list spelled in any way is read as its options in order, a block for each option or group. |
| SpelledLists.CommentIsRead | parser.go:584-597 | A comment behind a rule is an option in a block of its own. |
| SpelledLists.NoCommentIsRead | parser.go:584-597 | Any other text behind a rule is left alone. |
| OptionPlaces.ValidateOptionPlaces | format.go:873-891 | The check accepts exactly the lists whose places follow one another. |
| OptionPlaces.ValidIsCounted | format.go:873-891 | Places that are accepted are those of counters of blocks and patterns, of which sixteen bits are kept. |
| OptionPlaces.CountedIsValid | format.go:873-891 | Places of such counters are accepted. |
| OptionPlaces.ValidateStateOptions | format.go:916-932 | The failure is that of the first option that creates state in a group or after another one, and none exactly when there is none. |
| OptionPlaces.StateValidIff | format.go:915-932 | A list passes exactly when no option that creates state is in a group and at most one does. |
| OptionPlaces.NextOptionPattern | format.go:894-901 | The run of options in the pattern of the first. |
| OptionPlaces.ParsedOptionsAreAccepted | opt.go:94-207 | Whatever options the parser emits for a rule, its trailing comment included, and any part from their start, pass the formatter's checks of places, state and list members. |
| OptionPlaces.ContiguousIff | opt.go:184-207 | Parsed blocks are contiguous exactly when no block number wrapped. |
| OptionPlaces.WellPlacedIff | opt.go:184-207 | Parsed blocks and patterns stand together under one negation exactly when no number wrapped. |
| OptionPlaces.ParsedOptionsMean | vm/vm.go:1070-1128 | When no number wrapped, the scan of parsed options holds exactly when every block has a pattern that does. |
| Resolver.ResolveTarget | vmstate.go:269-327 | A target reaches the state as its keyword, table or networks, up to the first refusal. |
| Resolver.ResolvedTarget | vmstate.go:261-304 | The matches of a target share its pattern and negation, hold exactly when it does, and are never none under a negation. |
| Resolver.ResolvingKeepsMeaning | vmstate.go:269-327 | The scan over the resolved side holds exactly when a raw pattern does: the address is in the union of its members, or in none of them when negated, with any names resolving to nothing. |
| Resolver.SideInTurn | vmstate.go:154-175 | Resolving targets one after the other hands the state the matches of the whole side, up to the first it refuses. |
| Resolver.ResolveOption | vmstate.go:197-213 | An option keeps its kind, negation, block and pattern, and only its protocol or ports become numbers. |
| Resolver.NumbersAreResolved | vmstate.go:217-263 | Each protocol or port becomes the number written or the one its name is looked up as, and fails exactly when there is none. |
| Resolver.MatchesMean | vmstate.go:269-327 | When the matches of a target hold, kind by kind. |
| Resolver.NamesInOrder | vmstate.go:269-327 | The networks of a name in order, those of IPv4 first, and one match for a negated name of none. |
| Resolver.ResolutionFails | vmstate.go:269-327 | When a target has no matches, and why. |
| Resolver.OnOption | vmstate.go:197-213 | The option reaches the state by its numbers, or a name without one fails before that. |
| Resolver.PatternedIff | target.go:68-84 | Parsed patterns stand together under one negation exactly when no pattern number wrapped. |
| Resolver.ParsedSideMeans | target.go:68-134 | A section that is parsed and resolved matches what its targets say, when no pattern number wrapped. |

## Left out

- Diagnostics, error texts, terminal styling and the positions of errors in a file.
- The line grammar: records, `#` comments, probing of headers by hooks, actions, log, tags and table commands.
- The readers of the arguments of options other than ports: they are functions that take some of the text or fail.
- Whole lines of the formatter, custom option appenders and the text of options: the checks of places are modelled and their text is not.
- Table commands of a build and table types: a table line is accepted or refused by a flag.
- Parsing of network text, name, protocol and service resolution, registries and custom matchers: uninterpreted functions.
- Stateful matching: keep-state, check-state, diverted and antispoof are the fixed policies of the VM.
- Build.Build: takes fewer than 2^32 tokens in all, so that no end of a run is truncated; longer arenas are not modelled.
- Build.ReadLine: takes fewer than 2^32 tokens so far, for the same reason.
- Builder.RuleBuilder.Add: takes arenas of fewer than 2^32 tokens, for the same reason.
- Ruleset.CheckRuleset: takes fewer than 2^32 tokens in all, for the same reason.
- Build.BuiltMeansSource: the ruleset as written is reached when no or-block is interrupted, which opt.go:692-697 asks of hooks that number options themselves; the ruleset without idle comments is reached always.
- RawPackets.WithTCP6: taken on packets whose walk reaches a transport header; the original panics on the others.
- Builder.RuleBuilder.Drop: the slots past the end of an arena, which the original clears for the garbage collector, are not modelled.
- Allocation, inlining, registers and the concurrency contract of registries.
