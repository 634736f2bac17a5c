# Verified models of the bundled resolver, test runner and message framing

This project models, in Dafny, the parts of the repository whose correctness is
hardest to see by reading: the name codec, reply parser, query lists, lookup
state machines and configuration code of the bundled c-ares resolver, the section
tracker and generator counter of the bundled Catch test runner, and the
`#`-terminated message frames of the platform's own library. Each operation that
the source performs step by step is a method with loops over mutable state, proved
against a specification that does not mention those steps; the lemmas then say
what the specifications mean.

`dafny verify dfyconfig.toml` checks everything.

| file | what it models | main results |
|---|---|---|
| `NameExpansion.dfy` | `name_length`, `ares_expand_name` | the pointer budget rejects exactly the endless walks; the unguarded loop prints exactly the escaped labels |
| `QueryEncoding.dfy`, `NameRoundTrip.dfy` | `ares_create_query` | exact buffer use for every name; every spelling is read, with the exact limits; encoding and expanding undo each other, with the exact condition; pointers decode to what they point to |
| `AddressReply.dfy` | `ares_parse_a_reply` | refines a fold over the answer records on every path, with the exact condition for running out of memory; every block is freed once or reachable once, and parsing then freeing leaves none |
| `ReplyRoundTrip.dfy` | the same, on replies as they are sent | records and CNAME chains are read back with their least TTL; every reply that is cut short is refused |
| `QueryLists.dfy` | `ares_llist`, `ares_cancel`, `ares_destroy` | on a real heap of circular lists: cancel and destroy call back exactly the right queries, once, in order, while callbacks send new ones |
| `HostLookup.dfy`, `AddressLookup.dfy` | `ares_gethostbyname`, `ares_gethostbyaddr`, `ares_getnameinfo` | one callback for every sequence of outcomes, with the sum of timeouts, from the last answer or the first hosts file entry; exactly when A follows AAAA |
| `StableSort.dfy`, `AddressSort.dfy` | address sorting by sortlist | the in-place sort is the one stable sort by first matching pattern |
| `ServerList.dfy` | `set_servers_csv`, `ares_set/get_servers_ports` | the in-place scanner refines an item grammar; lists are split and read back, with or without ports |
| `ChannelConfig.dfy` | `ares_init_options`, `ares_save_options`, `ares_dup` | precedence of sources; exactly when a copy is the same, and when it keeps the servers |
| `OptionScanner.dfy` | `ares_getopt` | every scan ends; command lines are read back, however grouped, with unknown letters and a missing argument reported in place; exactly when a scan comes back to where it started |
| `SectionTracker.dfy` | Catch section tracking | one cycle per root-to-leaf path, left to right, each once |
| `GeneratorOdometer.dfy` | Catch generators | counting modulo the product; every tuple visited once |
| `TestCaseRun.dfy` | the run loop of a Catch test case | every combination of generator values with every root-to-leaf path, each pair once, also when generators register late |
| `FrameStream.dfy` | `CDataStream`, `CSmartSocket` | frames sent as one buffer leave the queue one by one, in order |

Where the code does less than its comments or its users may expect, the code is
followed, the exact condition is proved, and an input shows the difference:

- The bytes a message takes are those `ares_create_query` reserves, except that the
  root name "." takes one less and a name that ends in an escaped period one more
  (`NameRoundTrip.MessageFillsBuffer`). The name `a\.` is accepted and needs one byte
  more than its buffer has (`NameRoundTrip.OneByteTooMany`). The model's buffer has a
  spare cell for that byte.
- A copy made by `ares_dup` is the same in everything if and only if the source has the
  rotation that its option or the present environment gives, the default EDNS size and
  no socket buffer sizes, and is not a primary channel with several servers that are
  all IPv4 on the default port (`ChannelConfig.Dup`). For a new channel copied in the
  same environment this means: rotation and servers are always kept, and everything is
  kept if and only if no other EDNS size and no buffer size was asked for
  (`ChannelConfig.InitThenDup`). Reachable losses: sizes given as options
  (`SizesAreLost`), rotation when the environment has changed since (`RotationIsLost`),
  and servers set later on a primary channel (`ServersAreLost`).
- `ares_destroy` calls back what callbacks send while it runs, except what the callback
  of the last listed query sends; all lists end empty if and only if that callback sends
  nothing (`QueryLists.Channel.Destroy`). One query whose callback sends another leaves
  that one behind (`QueryLists.LeftBehind`).
- A scan of the command line that finds something comes back to the argument it started
  with if and only if that argument is a cluster of letters without arguments that ends
  in an undeclared `-` (`OptionScanner.ComesBack`), such as `-a-`
  (`OptionScanner.DashCluster`).
- Only the first frame of a received buffer has its length checked. All queued lengths
  are admissible if and only if the first frame's is not, or those of all frames before
  the first unterminated one are (`FrameStream.SmartSocket.ProRawData`); a frame of one
  byte behind an admissible one is queued (`FrameStream.ShortFrameIsQueued`).
- The host of an item `[h]t` in a server list is read as `h` if and only if `t` is a
  colon followed by nothing but digits and colons (`ServerList.BracketItem`). So `[h]:`
  loses its brackets although it names no port, while `[h]` and `[h]:53x` are handed to
  the address parser with the closing bracket (`ServerList.BracketWithoutPort` for the
  first of these).

Foreign calls are parameters: address text conversion is a pair of maps, the hosts
file and DNS are sequences of outcomes, the environment and system configuration
are records of settings, user callbacks are scripts of what they send, and memory
is an oracle that grants or refuses each allocation.

## Model

| member | source | states |
|---|---|---|
| `NameExpansion.HopsAreDetermined` | c-ares/ares_expand_name.c:149-188 | a walk over labels and pointers reaches its zero byte after one number of hops only |
| `NameExpansion.DistinctBelow` | c-ares/ares_expand_name.c:162-166 | distinct positions in a message are no more than its bytes, the reason a pointer budget of alen is enough |
| `NameExpansion.TooManyVisitsIsALoop` | c-ares/ares_expand_name.c:162-166 | a walk that has followed more than alen pointers never ends |
| `NameExpansion.ReadHop` | c-ares/ares_expand_name.c:151-187 | one step of the walk: a pointer or a label inside the message, or an invalid encoding |
| `NameExpansion.CountPrinted` | c-ares/ares_expand_name.c:149-188 | terminates; succeeds exactly when the walk ends inside the message, and counts the bytes to be printed |
| `NameExpansion.NameLength` | c-ares/ares_expand_name.c:140-194 | non-negative exactly when the name resolves, and then the length of its dotted escaped labels |
| `NameExpansion.ExpandLabels` | c-ares/ares_expand_name.c:98-132 | the loop without checks terminates, reads inside the message, fills exactly the buffer with the spelled labels, and finds the encoded length |
| `NameExpansion.ExpandName` | c-ares/ares_expand_name.c:62-135 | succeeds exactly for names that resolve, with their dotted labels and a terminator, and the bytes up to the first pointer or the zero |
| `NameExpansion.SpelledIsDots` | c-ares/ares_expand_name.c:115-122 | what the loop prints is the escaped labels, each followed by a period |
| `QueryEncoding.CountReserved` | c-ares/ares_create_query.c:99-113 | the pre-count is the number of characters after unescaping, plus the framing bytes |
| `QueryEncoding.ReservedIsWritten` | c-ares/ares_create_query.c:99-113 | the pre-count equals the wire length of the parsed labels, except that a final escaped period is one byte short |
| `QueryEncoding.CountLabel` | c-ares/ares_create_query.c:165-172 | the label count is the number of bytes the label stands for |
| `QueryEncoding.WriteLabel` | c-ares/ares_create_query.c:176-183 | writes the label's length and its unescaped bytes |
| `QueryEncoding.WriteName` | c-ares/ares_create_query.c:158-189 | fails exactly for names with an empty or overlong label, otherwise writes the wire form; the cursor stays within its limit |
| `QueryEncoding.WriteHeader` | c-ares/ares_create_query.c:137-152 | the twelve header bytes |
| `QueryEncoding.WriteQuestion` | c-ares/ares_create_query.c:194-196 | type and class behind the name |
| `QueryEncoding.WriteOpt` | c-ares/ares_create_query.c:198-205 | the EDNS0 OPT record of section 6.1.2 of RFC 6891 |
| `QueryEncoding.CreateQuery` | c-ares/ares_create_query.c:87-208 | succeeds exactly for names within both limits; the buffer then holds header, wire name, type, class and OPT record |
| `NameRoundTrip.MessageFillsBuffer` | c-ares/ares_create_query.c:132-133 | the message fills exactly buflen bytes, but one less for "." and one more for a final escaped period |
| `NameRoundTrip.OneByteTooMany` | c-ares/ares_create_query.c:112-113 | the accepted name a\. needs one byte more than its buffer has |
| `NameRoundTrip.FieldsReadBack` | c-ares/ares_dns.h:23-101 | identifier, counts, type, class and UDP size are read back by the accessors; of the flags only RD is ever set |
| `NameRoundTrip.QueryBytes` | c-ares/ares_create_query.c:137-205 | the bytes of one whole query, written out |
| `NameRoundTrip.WireDecodes` | c-ares/ares_expand_name.c:99-126 | a wire name decodes to its labels wherever it stands in a message |
| `NameRoundTrip.PrefixDecodes` | c-ares/ares_expand_name.c:99-126 | labels in front of anything that can be read as a name are read before it |
| `NameRoundTrip.PointerDecodes` | c-ares/ares_expand_name.c:102-110 | the two bytes of 0xC000 + t stand for the name at offset t: they can be read if and only if that can, and give the same labels |
| `NameRoundTrip.CompressedDecodes` | c-ares/ares_expand_name.c:98-132 | labels and then a pointer decode to those labels and the ones pointed to, and span their own bytes and two more |
| `NameRoundTrip.Unreadable` | c-ares/ares_expand_name.c:151-187 | no name can be read outside the message, at top bits 01 or 10, or where a label or a pointer is cut off |
| `NameRoundTrip.ParseDotted` | c-ares/ares_create_query.c:160-189 | the encoder reads the expander's escaped form back as the same labels |
| `NameRoundTrip.SpelledName` | c-ares/ares_create_query.c:158-189 | whatever is escaped in it, a name is read as the bytes its labels stand for, if and only if each label has one to 63 |
| `NameRoundTrip.EveryNameIsSpelled` | c-ares/ares_create_query.c:158-189 | every name is such a spelling |
| `NameRoundTrip.AcceptedNames` | c-ares/ares_create_query.c:99-130 | the names accepted: legal labels whose wire form has at most 255 bytes, not counting the one that a final escaped period is not charged for |
| `NameRoundTrip.DottedIsWellEscaped` | c-ares/ares_expand_name.c:115-130 | what the expander prints is well escaped |
| `NameRoundTrip.PrintingRestores` | c-ares/ares_create_query.c:160-189 | an accepted name is printed back unchanged if and only if it is well escaped |
| `NameRoundTrip.EncodeThenExpand` | c-ares/ares_create_query.c:154-192 | building a query and expanding its name returns the name, unchanged if and only if it is well escaped; a lone period is the root |
| `NameRoundTrip.QueryNameDecodes` | c-ares/ares_create_query.c:158-196 | the question name of a built query decodes to the parsed labels, even cut at buflen |
| `NameRoundTrip.ExpandThenEncode` | c-ares/ares_create_query.c:154-192 | the expansion of any readable, possibly compressed name encodes to the same labels without pointers |
| `AddressReply.ChainTtlIsMinimum` | c-ares/ares_parse_a_reply.c:193-195 | the chain TTL is the least of the CNAME TTLs |
| `AddressReply.OneMoreRecord` | c-ares/ares_parse_a_reply.c:146-196 | what one more record adds: a CNAME changes the name and is an alias, an address counts if its class, type, length and owner fit |
| `AddressReply.SameNameIgnoresCase` | c-ares/ares_parse_a_reply.c:148-148 | owners are compared up to the case of letters, and up to their first zero |
| `AddressReply.ReadTheRest` | c-ares/ares_parse_a_reply.c:120-206 | reading records one at a time agrees with reading them all |
| `AddressReply.ExpandForResponse` | c-ares/ares_expand_name.c:196-205 | names that do not resolve are malformed replies; a block is taken only on success |
| `AddressReply.BeginParse` | c-ares/ares_parse_a_reply.c:71-91 | header and question, or the right failure with nothing left allocated |
| `AddressReply.AllocBuffers` | c-ares/ares_parse_a_reply.c:93-115 | both buffers, or neither and the question name freed |
| `AddressReply.AnswerScan.DecodeRecord` | c-ares/ares_parse_a_reply.c:123-144 | the record's fields, or a malformed reply with its name freed |
| `AddressReply.AnswerScan.TakeAddress` | c-ares/ares_parse_a_reply.c:150-173 | one more address, and its TTL while the caller's array has room |
| `AddressReply.AnswerScan.TakeCname` | c-ares/ares_parse_a_reply.c:176-196 | the owner becomes an alias and the target the chain's end; ownership follows |
| `AddressReply.AnswerScan.ExamineRecord` | c-ares/ares_parse_a_reply.c:121-206 | one turn of the loop keeps the meaning of the records seen and the ownership of every block |
| `AddressReply.AnswerScan.ExamineAll` | c-ares/ares_parse_a_reply.c:117-206 | after the loop the arrays mean the fold over all answers, or the failure is the reply's or memory's |
| `AddressReply.AnswerScan.ClampTtls` | c-ares/ares_parse_a_reply.c:215-225 | each reported TTL becomes the minimum of its own and the chain's |
| `AddressReply.AnswerScan.Release` | c-ares/ares_parse_a_reply.c:255-262 | every block still owned is freed once |
| `AddressReply.BuildHostent` | c-ares/ares_parse_a_reply.c:228-253 | the host entry takes over all blocks, or all are freed |
| `AddressReply.FreeHostent` | c-ares/ares_free_hostent.c:26-43 | gives back every block that can be reached from a host entry, each once |
| `AddressReply.FinishReply` | c-ares/ares_parse_a_reply.c:208-263 | no data if nothing was found, otherwise the report; every block is handed over or freed |
| `AddressReply.ParseAReply` | c-ares/ares_parse_a_reply.c:49-264 | status, addresses, aliases, final name and TTLs are those of the fold over the answers; out of memory if and only if a request made by this call is refused; on every path each allocated block is freed once or reachable once |
| `AddressReply.ParseThenFree` | c-ares/ares_parse_a_reply.c:49-264 | parsing a reply and freeing its host entry leaves exactly the blocks there were before |
| `ReplyRoundTrip.RecordReads` | c-ares/ares_parse_a_reply.c:123-144 | a record, with its owner compressed or not, is read as its owner, its fields in network order and its data; a CNAME needs a readable target |
| `ReplyRoundTrip.ReplyReads` | c-ares/ares_parse_a_reply.c:71-206 | a reply is read as its question and its answers, whatever follows them |
| `ReplyRoundTrip.OneQuestionOnly` | c-ares/ares_parse_a_reply.c:71-79 | a message without exactly one question is malformed |
| `ReplyRoundTrip.CutReply` | c-ares/ares_parse_a_reply.c:71-144 | a reply that is cut short anywhere is malformed |
| `ReplyRoundTrip.ChainMeans` | c-ares/ares_parse_a_reply.c:146-196 | the answers of a chain mean its aliases, its addresses and the name at its end |
| `ReplyRoundTrip.ParseChain` | c-ares/ares_parse_a_reply.c:49-264 | a reply that leads over aliases to addresses is reported as sent: all addresses and aliases in order, the last name, and with each address the least of its own TTL and those of the aliases |
| `QueryLists.InitListHead` | c-ares/ares_llist.c:27-31 | an empty ring |
| `QueryLists.IsListEmpty` | c-ares/ares_llist.c:41-43 | true exactly for the empty ring |
| `QueryLists.InsertInList` | c-ares/ares_llist.c:46-52 | the ring with the node inserted before the given one |
| `QueryLists.RemoveFromList` | c-ares/ares_llist.c:55-62 | the ring without the node; nothing happens to a node on no list |
| `QueryLists.TakeOver` | c-ares/ares_cancel.c:40-46 | the copied head takes over the nodes in order and the old head is left empty |
| `QueryLists.Channel.FreeQuery` | c-ares/ares_process.c:1346-1360 | the query leaves every list it is on, and the other queries keep their places |
| `QueryLists.Channel.SendQuery` | c-ares/ares_send.c:113-130 | a new query stands last on all_queries, on its qid bucket and, once sent, on a timeout and a server list |
| `QueryLists.NewPlaces` | c-ares/ares_send.c:113-130 | where the four nodes of a new query go, behind all that is listed already |
| `QueryLists.Channel.Callback` | c-ares/ares_cancel.c:51-51 | a callback may send any queries; they come last on all_queries |
| `QueryLists.Channel.Drain` | c-ares/ares_cancel.c:47-53 | the queries of the drained list are called back and freed, each once and in order, whatever the callbacks send |
| `QueryLists.Channel.SwapHeads` | c-ares/ares_cancel.c:36-46 | all queries move to a list of their own and every list stays well formed |
| `QueryLists.Channel.Cancel` | c-ares/ares_cancel.c:26-63 | exactly the queries present on entry are called back, once and in order; what callbacks sent is exactly what remains; sockets close only if nothing remains |
| `QueryLists.Channel.AddList` | c-ares/ares_init.c:177-186 | one more empty list, and all lists stay well formed |
| `QueryLists.Channel.CancelOne` | c-ares/ares_cancel.c:47-53 | one turn: the next node is read, the query called back and freed, and what the callback sends comes last on all_queries |
| `QueryLists.Channel.DrainAll` | c-ares/ares_destroy.c:51-58 | the walk over a list that callbacks extend: the queries on it at first and then those sent, in sending order, and where it ends |
| `QueryLists.Channel.Destroy` | c-ares/ares_destroy.c:41-108 | called back, each once, are the queries present on entry and then those that callbacks sent, in sending order, except what the last callback sends; the assertions that all lists are empty hold if and only if that is nothing |
| `QueryLists.QuietWalk` | c-ares/ares_destroy.c:51-58 | if callbacks send nothing, exactly the queries present on entry are called back |
| `QueryLists.LeftBehind` | c-ares/ares_destroy.c:51-58 | one query whose callback sends one: one call is made, and one query is left |
| `QueryLists.WithoutBoth` | c-ares/ares_process.c:1348-1352 | unlinking from several lists commutes |
| `HostLookup.HostQuery.NextLookup` | c-ares/ares_gethostbyname.c:125-169 | continues the specified lookup: starts the next search or makes the one callback, never replacing the DNS status by a file's |
| `HostLookup.HostQuery.HostCallback` | c-ares/ares_gethostbyname.c:171-221 | adds the timeouts and continues the specified lookup; the remaining lookups or the pending fallback strictly decrease; no host entry is leaked |
| `HostLookup.HostQuery.EndHquery` | c-ares/ares_gethostbyname.c:223-231 | one callback with all timeouts, and the query is gone |
| `HostLookup.HostQuery.SortedHost` | c-ares/ares_gethostbyname.c:183-205 | the host entry with its addresses in sortlist order |
| `HostLookup.IsDottedQuad` | c-ares/ares_gethostbyname.c:249-266 | digits and exactly three dots |
| `HostLookup.QuadIsFourParts` | c-ares/ares_gethostbyname.c:249-266 | such a name is four runs of digits with a dot between each two, and nothing else is |
| `HostLookup.FakeHostent` | c-ares/ares_gethostbyname.c:233-310 | the host entry of a name that spells an address, exactly when it does |
| `HostLookup.RunLookup` | c-ares/ares_gethostbyname.c:125-221 | whatever the replies, searches and callbacks are those of the specified lookup |
| `HostLookup.GetHostByName` | c-ares/ares_gethostbyname.c:80-123 | exactly one callback once enough replies have come, at most two searches for each 'b'; which family each search asks for, with the exact answers after which A follows AAAA; the callback tells of the last answer if that ended the lookup, otherwise of the first entry of the hosts file, which no search passes over, or if there is none of the last failure |
| `HostLookup.ResolveAccounts` | c-ares/ares_gethostbyname.c:125-221 | the callback reports the sum of its searches' timeouts, and the last answer, the first hosts file entry or the last failure, whichever decides |
| `HostLookup.ResolveSequence` | c-ares/ares_gethostbyname.c:135-216 | each search asks for A exactly after an answer that calls for the fallback, otherwise for the first family |
| `HostLookup.ResolveWithinBudget` | c-ares/ares_gethostbyname.c:125-221 | at most two searches for each 'b' of an unspecified family, one otherwise |
| `AddressLookup.AddrQuery.NextLookup` | c-ares/ares_gethostbyaddr.c:101-133 | continues the specified lookup: a PTR query, a file entry, or not found |
| `AddressLookup.AddrQuery.AddrCallback` | c-ares/ares_gethostbyaddr.c:135-163 | adds the timeouts and continues the specified lookup |
| `AddressLookup.AddrQuery.EndAquery` | c-ares/ares_gethostbyaddr.c:165-172 | one callback with all timeouts, and the query is gone |
| `AddressLookup.GetHostByAddr` | c-ares/ares_gethostbyaddr.c:63-99 | exactly one callback once enough replies have come, at most one query for each 'b', and none past an entry that the hosts file has; the callback tells of the last reply if that did not fail, otherwise of the first file entry, and of nothing found if and only if there is none |
| `AddressLookup.ResolvePtrAccounts` | c-ares/ares_gethostbyaddr.c:101-163 | all replies but perhaps the last failed; the callback has the sum of timeouts and tells of that reply, of the first file entry, or that there is none |
| `AddressLookup.NameInfoQuery.NameInfoCallback` | c-ares/ares_getnameinfo.c:196-273 | one callback: the name, the numeric text in its place unless a name is required, or the failure |
| `AddressLookup.GetNameInfo` | c-ares/ares_getnameinfo.c:82-273 | one callback for every combination of flags and every sequence of outcomes, telling of the address lookup where one is made; a required name is never numeric, otherwise "not found" is never reported |
| `AddressLookup.NameTimeouts` | c-ares/ares_getnameinfo.c:203-203 | the timeouts reported are those of all queries made |
| `StableSort.StableIsPermutation` | c-ares/ares_gethostbyname.c:422-447 | a stable sort is a permutation |
| `StableSort.StableIsUnique` | c-ares/ares_gethostbyname.c:422-447 | there is only one stable sort |
| `StableSort.StableIsGrouped` | c-ares/ares_gethostbyname.c:422-447 | a sequence is the stable sort if and only if it is the groups of equal keys in key order |
| `AddressSort.BitCompare` | c-ares/bitncmp.c:36-58 | zero exactly for equal prefixes, otherwise the sign of the first differing bit in network order |
| `AddressSort.CompareTail` | c-ares/bitncmp.c:46-56 | the shifting loop compares the bits of the last byte in order |
| `AddressSort.KeyIsFirstMatch` | c-ares/ares_gethostbyname.c:449-476 | the sort index is the first pattern of the family that matches, or the number of patterns |
| `AddressSort.MatchesBitwise` | c-ares/ares_gethostbyname.c:460-473 | which addresses a pattern covers, bit by bit: by prefix, or by the bits under its mask |
| `AddressSort.AddressIndex4` | c-ares/ares_gethostbyname.c:452-476 | finds that index for IPv4, by mask or by prefix |
| `AddressSort.AddressIndex6` | c-ares/ares_gethostbyname.c:505-522 | finds that index for IPv6 |
| `AddressSort.InsertBack` | c-ares/ares_gethostbyname.c:435-445 | moving one address back keeps the slots before it stably sorted and the rest untouched |
| `AddressSort.SortAddresses` | c-ares/ares_gethostbyname.c:422-503 | the slots end as the stable sort of what they were, by first matching pattern, unmatched last |
| `AddressSort.StableIsSorted` | c-ares/ares_gethostbyname.c:422-503 | that sort is the addresses of each pattern in sortlist order, then the unmatched |
| `ServerList.FindPortBackwards` | c-ares/ares_options.c:299-316 | the backward search stops where the item grammar has its port |
| `ServerList.TakeItem` | c-ares/ares_options.c:290-327 | the zeros stored in the buffer leave the item's host readable, and the port is the item's |
| `ServerList.AddItem` | c-ares/ares_options.c:328-369 | the server an item names, IPv4 tried first |
| `ServerList.ScanServers` | c-ares/ares_options.c:277-375 | scanning in place yields the servers of all items in order, or fails exactly when some host is no address |
| `ServerList.PlainItemSplits` | c-ares/ares_options.c:305-307 | host:port is split at its colon |
| `ServerList.PlainItem` | c-ares/ares_options.c:297-316 | h:t is split at its colon if and only if t is digits; otherwise all of it is handed on |
| `ServerList.BareItem` | c-ares/ares_options.c:297-316 | a host without brackets and without exactly one colon has no port |
| `ServerList.BracketItemSplits` | c-ares/ares_options.c:301-304 | [host]:port is split at its bracket |
| `ServerList.BracketItem` | c-ares/ares_options.c:284-326 | the host of [h]t is read as h if and only if t is a colon followed by digits and colons only; then the port is what follows the colon, and otherwise, if t has no bracket, all of it is handed on |
| `ServerList.BracketWithoutPort` | c-ares/ares_options.c:308-313 | with nothing behind it the closing bracket stays in the host text |
| `ServerList.DecimalReadsBack` | c-ares/ares_options.c:324-324 | a printed port is read back |
| `ServerList.StrtolReads` | c-ares/ares_options.c:324-324 | a port is the number of its leading digits, cut at the greatest long |
| `ServerList.StoreServers` | c-ares/ares_options.c:220-233 | the table holds the given servers with their ports cut to 16 bits |
| `ServerList.FetchServers` | c-ares/ares_options.c:98-127 | the listed servers are those of the table, ports in host order |
| `ServerList.FetchedThenStored` | c-ares/ares_options.c:86-239 | storing fetched servers restores the table exactly |
| `ServerList.ServerTable.SetServersPorts` | c-ares/ares_options.c:192-239 | the new table holds exactly the given servers, and is unset if there are none |
| `ServerList.ServerTable.GetServersPorts` | c-ares/ares_options.c:86-141 | returns the table's servers in order |
| `ServerList.ServerTable.SetServersCsv` | c-ares/ares_options.c:243-389 | if all items of the list are known hosts, the table holds their servers in order, IPv4 before IPv6, with their ports in network order, or with ports 0 if ports are not wanted; otherwise, and for an empty list, it is unset |
| `ServerList.NodesAre` | c-ares/ares_options.c:328-369 | a list names servers if and only if every item is a known host, and then one for each, with its port or 0 |
| `ServerList.ListSplits` | c-ares/ares_options.c:277-290 | a list is split into its items again |
| `ServerList.PrintedListReads` | c-ares/ares_options.c:277-375 | a printed list of servers, with or without its last comma, is scanned as its items, all of them known hosts |
| `ServerList.ServersRoundTrip` | c-ares/ares_options.c:243-389 | setting a printed list, with or without its last comma, and getting the servers returns the same hosts in order, with the printed ports if ports are wanted and 0 otherwise |
| `ChannelConfig.Channel.InitByOptions` | c-ares/ares_init.c:430-536 | options fill what is unset, and nothing else |
| `ChannelConfig.Channel.InitBySource` | c-ares/ares_init.c:1851-1879 | the environment and the system fill what is still unset, and nothing else |
| `ChannelConfig.Channel.InitByDefaults` | c-ares/ares_init.c:1436-1577 | defaults fill what is still unset, and nothing else; fails if the search list would have to come from an unknown host name |
| `ChannelConfig.Channel.SetServersPorts` | c-ares/ares_options.c:192-239 | the channel's servers become the given ones, whatever its flags, and nothing else changes |
| `ChannelConfig.InitOptions` | c-ares/ares_init.c:108-261 | every field comes from the first of options, environment, system and defaults that gives it, written out field by field; under the primary flag one server is kept; when it fails, and how |
| `ChannelConfig.InitialFields` | c-ares/ares_init.c:430-536 | the same for the configuration as it is put together: units, byte order and default of each field |
| `ChannelConfig.PrimaryIsBitOne` | c-ares/ares.h:135-135 | the primary flag is the second lowest bit |
| `ChannelConfig.SaveOptions` | c-ares/ares_init.c:334-428 | no data if something is unset, otherwise every saved field and exactly the IPv4 servers on the default port, in order |
| `ChannelConfig.SavedServer` | c-ares/ares_init.c:368-392 | a server is saved exactly if it is IPv4 on the default port, in its place among the others |
| `ChannelConfig.AllDefaultV4` | c-ares/ares_init.c:368-392 | when all servers are such, saving and initialising restores them |
| `ChannelConfig.SavedConfig` | c-ares/ares_init.c:275-285 | initialising from saved options restores the configuration up to the servers and what is not saved |
| `ChannelConfig.HasSpecialServer` | c-ares/ares_init.c:304-313 | true exactly when some server is not IPv4 on the default port |
| `ChannelConfig.CloneServers` | c-ares/ares_init.c:314-328 | cloning through the list form gives the same table |
| `ChannelConfig.Dup` | c-ares/ares_init.c:265-331 | no data if something is unset, otherwise a copy of the configuration for any mix of servers and ports; the same in everything if and only if nothing is lost that saving leaves out, and with the same servers if and only if it is no primary channel with several plain ones |
| `ChannelConfig.InitThenDup` | c-ares/ares_init.c:108-331 | a new channel copied in the same environment keeps rotation and servers, and everything if and only if no other EDNS size and no buffer size was asked for |
| `ChannelConfig.DupTwice` | c-ares/ares_init.c:265-331 | copying a copy in the same environment changes nothing more |
| `ChannelConfig.SizesAreLost` | c-ares/ares_init.c:349-353 | a new channel with its own EDNS and buffer sizes, whose copy has none of them |
| `ChannelConfig.RotationIsLost` | c-ares/ares_init.c:346-353 | a new channel that rotates because of its environment, whose copy in another environment does not |
| `ChannelConfig.ServersAreLost` | c-ares/ares_init.c:253-255 | a primary channel given two plain servers, whose copy has the first only |
| `OptionScanner.NextProgresses` | c-ares/ares_getopt.c:65-122 | every call that does not report the end scans something; input is given back exactly when the last character of an argument is reached and is an undeclared '-' |
| `OptionScanner.CheckedIsNoNul` | c-ares/ares_getopt.c:83-84 | the option string is never searched for the end of an argument |
| `OptionScanner.Scanner.UpdatePlace` | c-ares/ares_getopt.c:71-82 | the text to scan next, or the end of the options |
| `OptionScanner.Scanner.TakeLetter` | c-ares/ares_getopt.c:83-121 | the letter at the pointer, with its argument, or the error |
| `OptionScanner.Scanner.GetOpt` | c-ares/ares_getopt.c:65-122 | one call does the specified step, with the whole new state; the letter looked up is never a NUL |
| `OptionScanner.ScanAll` | c-ares/ares_getopt.c:65-122 | a loop of calls ends and finds what the specified scan finds |
| `OptionScanner.OptionsDeclared` | c-ares/ares_getopt.c:83-95 | the options of an option string are its letters, and take an argument if a colon follows |
| `OptionScanner.LeadingColon` | c-ares/ares_getopt.c:83-95 | a colon at the front of the option string declares nothing |
| `OptionScanner.ScansPrinted` | c-ares/ares_getopt.c:65-122 | options printed in any grouping, with attached or separate arguments, are found again in order and the operands are left; unknown letters and an argument missing at the end are reported in their place |
| `OptionScanner.ComesBack` | c-ares/ares_getopt.c:83-92 | a scan that finds something comes back to its first argument if and only if that is a cluster ending in an undeclared '-' |
| `OptionScanner.DashCluster` | c-ares/ares_getopt.c:83-92 | -a- is such a cluster: the option is found and the index stays |
| `SectionTracker.TrackerContext.FindChild` | UnitTest/catch.hpp:6042-6047 | the first child of that name and location |
| `SectionTracker.FirstNamedFinds` | UnitTest/catch.hpp:6042-6047 | of several children of that name the first is found |
| `SectionTracker.TrackerContext.OpenChild` | UnitTest/catch.hpp:6053-6059 | every ancestor up to one already marked is executing children |
| `SectionTracker.MarksAncestors` | UnitTest/catch.hpp:6053-6059 | stopping at a marked tracker, the tracker and all its ancestors end up marked and nothing else changes |
| `SectionTracker.TrackerContext.Open` | UnitTest/catch.hpp:6064-6069 | the tracker executes and is current |
| `SectionTracker.TrackerContext.Acquire` | UnitTest/catch.hpp:6138-6159 | finds or adds the child and opens it unless it or the cycle is complete |
| `SectionTracker.TrackerContext.CloseCurrent` | UnitTest/catch.hpp:6077-6098 | the current tracker completes unless a child still has to run, and the cycle is complete |
| `SectionTracker.TrackerContext.Close` | UnitTest/catch.hpp:6071-6099 | closes the open descendants from the innermost on, and then the tracker |
| `SectionTracker.TrackerContext.SectionStarted` | UnitTest/catch.hpp:6578-6595 | enters exactly the trackers that are open after acquiring |
| `SectionTracker.TrackerContext.SectionEnded` | UnitTest/catch.hpp:6608-6619 | closes the innermost active section, if there is one |
| `SectionTracker.RecordsFrame` | UnitTest/catch.hpp:5987-6118 | what a tracker records of earlier cycles depends on its own subtree only |
| `SectionTracker.EnterSection` | UnitTest/catch.hpp:6138-6159 | opening the next section with leaves to run keeps the record of the others |
| `SectionTracker.LeaveSection` | UnitTest/catch.hpp:6071-6099 | closing it records one more leaf |
| `SectionTracker.TrackerContext.RunSection` | UnitTest/catch.hpp:6578-6619 | one section is entered exactly on its turn, and then runs exactly one path |
| `SectionTracker.TrackerContext.RunBody` | UnitTest/catch.hpp:6692-6736 | one pass over a body runs exactly the next path |
| `SectionTracker.TrackerContext.RunCycle` | UnitTest/catch.hpp:6527-6532 | cycle k runs the k-th path, and the last one completes the test case |
| `SectionTracker.TrackerContext.RunTest` | UnitTest/catch.hpp:6511-6535 | terminates; the cycles are exactly the root-to-leaf paths from left to right |
| `SectionTracker.AllPathsAt` | UnitTest/catch.hpp:6511-6535 | there are as many paths as leaves, and the k-th is the path of the k-th leaf |
| `SectionTracker.PathsAreDistinct` | UnitTest/catch.hpp:6511-6535 | no path runs twice |
| `GeneratorOdometer.GeneratorInfo.MoveNext` | UnitTest/catch.hpp:7809-7815 | the next index, or back to zero |
| `GeneratorOdometer.GeneratorsForTest.GetGeneratorInfo` | UnitTest/catch.hpp:7834-7843 | the generator of that name, appended at index zero if new |
| `GeneratorOdometer.GeneratorsForTest.MoveUntilOneStays` | UnitTest/catch.hpp:7846-7852 | which generators wrap, which one moves and which stay |
| `GeneratorOdometer.GeneratorsForTest.MoveNext` | UnitTest/catch.hpp:7845-7853 | the mixed-radix value goes up by one modulo the product; false exactly on the wrap, which never comes if some generator is empty |
| `GeneratorOdometer.GeneratorsForTest.VisitAll` | UnitTest/catch.hpp:6523-6535 | from zero, the loop visits value 0, 1, ... up to the product and ends at zero again |
| `GeneratorOdometer.ValueIsInjective` | UnitTest/catch.hpp:7845-7853 | different tuples have different values |
| `GeneratorOdometer.EachTupleOnce` | UnitTest/catch.hpp:7845-7853 | the visited tuples are all tuples of indices, each once |
| `TestCaseRun.DeclareMore` | UnitTest/catch.hpp:7834-7843 | new names register at the end and at index zero, with the size of their first use; known ones are found where they stand |
| `TestCaseRun.Register` | UnitTest/catch.hpp:7834-7843 | registering more generators, at any time, leaves them at the same value |
| `TestCaseRun.CombinationDigits` | UnitTest/catch.hpp:7845-7853 | every value below the product has its own combination |
| `TestCaseRun.RunPass` | UnitTest/catch.hpp:6523-6535 | one pass registers what the body asks for, runs all paths under the present combination and moves to the next |
| `TestCaseRun.RunTestCase` | UnitTest/catch.hpp:6523-6535 | pass by pass, the root-to-leaf paths of the sections that the body then has, under the combination of that number; it ends exactly when the passes are as many as the combinations of all generators registered by then |
| `TestCaseRun.SeenAndZeros` | UnitTest/catch.hpp:7834-7853 | the combination of number n of all generators is what pass n saw, and zero for those registered later |
| `TestCaseRun.RunsAre` | UnitTest/catch.hpp:6523-6535 | in a run that has ended every combination of all generators has its pass, and is run with a path if and only if that is one of its sections' |
| `TestCaseRun.RunsAreDistinct` | UnitTest/catch.hpp:6523-6535 | no pair is run twice |
| `FrameStream.DataStream.InputData` | GB28181.Lib/UACTCP.h:147-176 | the buffer with the data written at the position; a single '#' at the end also stores the length |
| `FrameStream.BuildFrame` | GB28181.Lib/UACTCP.h:147-201 | fields written behind the header and closed with '#' make the frame of their concatenation |
| `FrameStream.FrameBytes` | GB28181.Lib/UACTCP.h:147-201 | the bytes of one frame, written out |
| `FrameStream.Le32RoundTrip` | GB28181.Lib/UACTCP.h:161-162 | the length field reads back |
| `FrameStream.JoinIsInjective` | GB28181.Lib/SmartSocket.cpp:258-299 | a buffer of whole frames has only one reading |
| `FrameStream.ShortFrameIsQueued` | GB28181.Lib/SmartSocket.cpp:261-287 | a frame of one byte behind an admissible one is queued |
| `FrameStream.SmartSocket.ProRawData` | GB28181.Lib/SmartSocket.cpp:221-301 | queues the frames of a buffer in order up to one that is not terminated, if the first length is from 8 to 50000; zero exactly when all were queued; the exact condition for all queued lengths to be admissible |
| `FrameStream.SmartSocket.DequeuePackage` | GB28181.Lib/SmartSocket.cpp:303-330 | returns the first unread package, dropping the read ones before it, and removes it if asked |
| `FrameStream.DrainPackages` | GB28181.Lib/SmartSocket.cpp:303-330 | deleting dequeues return the queue first in, first out |
| `FrameStream.SendAndReceive` | GB28181.Lib/SmartSocket.cpp:221-330 | messages built, sent as one buffer and dequeued come out as their frames, in order |

## Left out

- Sockets, threads, events, the clock, random identifiers, the Windows registry, and the internals of `ares_search`, `ares_query`, `ares_inet_pton` and `ares_process`: foreign calls, taken as parameters.
- The other reply parsers (AAAA, PTR, MX, ...): only their outcome is a parameter of the lookups; they repeat the A parser's scheme.
- Allocation failure outside `AddressReply`: every other model assumes that memory is granted.
- The C integer width of counters such as `n` in `name_length` on messages that loop, and of `optind`: unbounded integers are used; field widths on the wire and 16-bit ports are modelled.
- NameExpansion.ExpandName: `alen` is the length of the message, so a negative `alen` is not modelled.
- AddressReply.ParseAReply: a negative capacity in `*naddrttls` is not modelled.
- QueryLists.Channel.Cancel: callbacks may send queries but not cancel or destroy the channel from inside.
- QueryLists.Channel.Destroy: callbacks may send queries but not cancel or destroy the channel from inside.
- QueryLists.Channel.Callback: it sends queries only, and makes no other calls on the channel.
- QueryLists.Channel.SendQuery: sends that fail and call back at once, before anything is queued, are not modelled.
- HostLookup.GetHostByName: the hosts file reader and the conversion of numeric names are parameters, and replies are delivered between calls rather than from inside `ares_search`.
- HostLookup.FakeHostent: what the name converts to in each family is a parameter.
- AddressLookup.GetHostByAddr: the text of the name that a PTR query asks for is not modelled.
- AddressLookup.NameInfoQuery.NameInfoCallback: stripping the local domain and scope identifiers are not modelled.
- AddressLookup.GetNameInfo: stripping the local domain under `ARES_NI_NOFQDN`, scope identifiers and the service table are not modelled.
- AddressSort.SortAddresses: one method stands for the IPv4 and the IPv6 sort, which differ only in the index they use; sortlist patterns are those that configuration produces (IPv6 only with prefix lengths, prefixes within the address).
- ServerList.ServerTable.SetServersCsv: the linked list of servers is a sequence, and `strtol` saturates at a 32-bit long.
- ChannelConfig.Channel.InitBySource: how the texts of the environment and of the system's configuration are parsed is not modelled; their settings are a parameter.
- ChannelConfig.Dup: domains and sortlist are copied as values, and failures of the environment and of the system configuration are single statuses.
- OptionScanner.Scanner.GetOpt: the messages on standard error and the `optreset` flag, which nothing sets, are not modelled.
- SectionTracker.TrackerContext.RunTest: section filters, failing assertions, aborting, exceptions and index trackers are not modelled; trackers live in an arena and pointers are indices.
- SectionTracker.TrackerContext.Acquire: section filters are not modelled.
- SectionTracker.TrackerContext.Close: closing a tracker that is not open, where the source throws, is excluded.
- GeneratorOdometer.GeneratorsForTest.VisitAll: generators are all registered before the first pass; registration at any time is in `TestCaseRun.RunTestCase`.
- TestCaseRun.RunTestCase: generators have at least one value, since an empty one never wraps; what the body asks for in a pass is registered before its first cycle instead of during its cycles, which the advance after them cannot tell apart.
- FrameStream.SmartSocket.ProRawData: frames split across receives are not modelled, since the outcome depends on uninitialised bytes; a received buffer is a sequence of whole frames.
- FrameStream.DataStream.InputData: a write past the buffer, which the bounded copy refuses, is not modelled.
- Reporters, matchers, command-line tools, SDP and XML handling, and start-up code: output or thin wrappers, with nothing hard to prove.
