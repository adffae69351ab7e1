# Verification of the libsocket resolver, ciphers and socket table

libsocket gives DJGPP programs BSD sockets and a DNS resolver.  This project models the parts of it
whose correctness is hard to see by reading, in Dafny, and proves what its callers rely on.  Code that
updates buffers, tables and records in place is modelled as methods on arrays and classes, each proved
against a function of its inputs; the theorems are about those functions and hold for all inputs, all
runs and all answers of the network.

- **Names** (`Bytes`, `Presentation`, `Wire`, `Trails`, `NameExpand`, `NameFind`, `NameCompress`, `Sharing`,
  `MessageRuns`, `MessageLinks`, `NameQuirks`): packing and expanding compressed DNS names (sections 2.3.3, 2.3.4, 3.1, 4.1.4 and 5.1 of
  RFC 1035).  Offsets stand for pointers into a message; -1 stands for a null pointer in a list.
- **Queries** (`Query`, `QueryBuilder`, `RequestFields`, `QueryAgreement`): building messages and recognising their
  questions (sections 4.1.1 and 4.1.2 of RFC 1035).
- **Control loops** (`SendTrace`, `ResolverSend`, `ResolverSearch`): retry, failover and fallback of `res_send`, the
  search-list walk of `res_search`.  The network is an oracle; `res_send` keeps a log of what it does.
- **Lists** (`SearchList`, `AddrSort`): the in-place search-list tokeniser and the address sort.
- **Passwords** (`DesTables`, `Des`, `DesCipher`, `DesWords`, `DesWires`, `DesReference`, `DesKnownAnswers`,
  `DesBoxes`, `PasswordCodec`, `PasswordChain`, `PasswordKnownAnswer`): the block cipher (FIPS PUB 46-3), a second
  form of it on words that is proved the same and on which known answers are worked out, the laws of its
  tables, the bit packings and the chained codec of `ruserpass`.
- **Address text** (`InetText`, `Nsap`): the readers and writers of Internet and NSAP addresses.
- **Sockets** (`SocketState`, `Sockets`): the record of a socket, the descriptor table and the file
  descriptors, with the answers of the interface, of `malloc` and of the descriptor allocator passed in.

`dafny verify dfyconfig.toml` checks everything.

Where the code and its comments or documentation differ, the model follows the code:

- The comment in `dn_comp` says trailing dots are caught "but not '..'" (src/inet/r_comp.c:283); `a..`
  is accepted as `a`.
- `dn_comp` documents -1 for errors but not that the exit at src/inet/r_comp.c:254-255 keeps what it
  recorded in the list (`MessageRuns.FailureKeepsSound` says when that matters).
- `dn_expand` accepts a name whose final pointer has its second byte just past the message;
  `__dn_skipname` does not.
- `res_queriesmatch` documents a one-to-one mapping; a malformed second message counts as a match
  (`Query.MalformedMatches`), and repeated questions are not counted (`Query.RepeatMatches`;
  `Query.MatchIsOneToOne` says when 1 means one).
- The exits of `res_search`, `res_querydomain` and `res_query` for a resolver that cannot be set up are
  never taken, as `res_init` always returns 0 (src/inet/r_init.c:554).
- The loops that look for a free slot (src/socket.c:132, src/accept.c:107) read one entry past a full
  table before they test the index; the model does not read it, but says when the code does.
- `inet_network` stores a fifth number behind its array of four before it turns the text down; the model
  does not store it, but says when the code does.
- `dn_expand` documents the end of the message but does not ask whether the name starts before it
  (`NameQuirks.NamesPastTheEnd`).
- `dn_comp` does not check that the place it shares is within reach of the 14 bits of a pointer
  (`NameQuirks.FarPlaceWraps`).
- `accept` reads the descriptor out of a record it has freed when the interface answers neither 0 nor
  -1; the model returns the value the record held.

## Model

| member | source | states |
|---|---|---|
| Bytes.ShortRoundTrip | include/arpa/nameser.h:244-268 | a 16-bit value stored big-endian and fetched again is the value modulo 65536 |
| Bytes.LongRoundTrip | src/inet/r_comp.c:434-473 | a 32-bit value stored big-endian and fetched again is the value modulo 2 to the 32nd |
| Bytes.MostSignificantFirst | include/arpa/nameser.h:244-268 | the more significant half of a 32-bit value and the more significant byte of a 16-bit one come first |
| Bytes.LowerPairs | src/inet/r_comp.c:342-354 | folding case brings together just the pairs A and a to Z and z, and leaves every other byte apart from all others |
| Bytes.SameTextIsAlike | src/inet/r_comp.c:342-354 | two texts are equal up to case exactly when they have one length and differ only in the case of letters A to Z |
| Presentation.ShowReadsBack | src/inet/r_comp.c:153-177 | the text the expander writes for any labels of 1 to 63 bytes without NUL, dots and backslashes escaped, is read by the packer's scan as those labels and no others |
| Presentation.ScanReadsWritten | src/inet/r_comp.c:250-282 | however a label is written, each byte as it is or behind a backslash, dots and backslashes always behind one, the packer's scan reads that label and stops behind it |
| Presentation.ShowLength | src/inet/r_comp.c:158-177 | the expander's text has the bytes of the labels, one dot between each two, and one backslash for each byte that is 46 or 92, and nothing else |
| Presentation.ShowPlain | src/inet/r_comp.c:158-177 | labels without the bytes 46 and 92 are shown as they are, joined by single dots |
| Presentation.SameShownIffSameLabels | src/inet/r_comp.c:342-354 | two label lists are equal up to ASCII case exactly when their texts are |
| Wire.PointerLeadsBack | src/inet/r_comp.c:253-258 | the two bytes stored for an offset lead back to it if and only if it is below 0x4000; the code does not check |
| Trails.PointerOnWire | src/inet/r_comp.c:256-257 | the two bytes stored for an offset below 0x4000 are the 16-bit number of 0xC000 and the offset, most significant byte first |
| Wire.DecodeFrame | src/inet/r_comp.c:153-198 | what a name built honestly spells, and where it ends, depend only on the bytes before its end |
| Wire.GuardAcceptsHonest | src/inet/r_comp.c:166-192 | the loop guard never rejects an honest name: the segments visited are disjoint, so the expander's walk over the message yields exactly the labels the name spells, and looks at no byte past the message |
| Trails.FollowedIffTrail | src/inet/r_comp.c:150-198 | in a message of any bytes the expander accepts a name exactly when a trail leads from it to a root byte: every place before the end, each behind a label or named by a pointer of the message, and at each pointer fewer bytes crossed than the message has; the labels are those on the trail |
| Trails.SizeOfRun | src/inet/r_comp.c:179-205 | the size of a name is that of its run of labels and of the root byte, or the two bytes of the pointer, that ends it |
| NameExpand.CopyByte | src/inet/r_comp.c:167-173 | one label byte is written, after a backslash if and only if it is 46 or 92, or not at all when the rest of the label could no longer fit |
| NameExpand.CopyLabel | src/inet/r_comp.c:164-176 | a label is copied escaped, exactly when it ends before the message does and leaves a byte free for the NUL; nothing past the buffer changes |
| NameExpand.AppendLabel | src/inet/r_comp.c:158-177 | the same with the separating dot, which the first label does not get |
| NameExpand.ShowsSpace | src/inet/r_comp.c:199-202 | the final scan finds white space exactly when the string shown has some before its first NUL |
| NameExpand.FollowLabel | src/inet/r_comp.c:158-177 | a round that meets a label leaves just the rest of the name to do, or rules the name out |
| NameExpand.FollowBeyond | src/inet/r_comp.c:147-198 | the loop for a name that starts past the end of the message, where nothing stops it |
| NameExpand.Follow | src/inet/r_comp.c:147-198 | the main loop terminates on arbitrary bytes, writes only inside the caller's buffer, and ends with the text of the labels the walk meets and the size of the name's own bytes |
| NameExpand.Expand | src/inet/r_comp.c:129-206 | for any bytes and any start in memory, past the end of the message too: the result, the text and its NUL, success exactly when the walk succeeds, the text fits and shows no white space, no write outside the buffer; the length of the text, and for labels without dots and backslashes their bytes joined by single dots, said without the escaping |
| NameExpand.SkipName | src/inet/r_comp.c:308-340 | the size of a name's own bytes, or -1 when they leave the message or hold a bad length byte |
| Trails.SkipsRun | src/inet/r_comp.c:321-339 | on any bytes, a run of labels is stepped over; where it stops decides between its size and failure |
| NameExpand.SkipAgreesWithExpand | src/inet/r_comp.c:153-206 | on arbitrary bytes, what the expander accepts is skipped by the same size, except a name whose pointer is cut by the end of the message, which only the skipper refuses |
| NameExpand.HonestNameExpands | src/inet/r_comp.c:129-206 | an honest name expands to its labels' text with its own size, failing only for room or white space, even in a message that fills its memory |
| NameFind.MatchLabelIsEquality | src/inet/r_comp.c:386-398 | the byte-wise label comparison with escapes accepts exactly the text labels equal to the wire label up to case |
| NameFind.MatchIsEquality | src/inet/r_comp.c:380-409 | the comparison of a text with a whole wire name holds exactly when the text is tidy and spells the same labels up to case |
| NameFind.FindDecidesEquality | src/inet/r_comp.c:363-413 | the search returns the first listed place that a tidy text is spelled like, byte by byte but for the case of letters A to Z, and -1 exactly when there is none |
| NameFind.CompareLabel | src/inet/r_comp.c:386-393 | the inner loop is the label comparison |
| NameFind.MatchName | src/inet/r_comp.c:378-411 | one round of the search, through any number of pointers, terminates and decides whether the listed name matches |
| NameFind.FindName | src/inet/r_comp.c:363-413 | the search over the listed names returns that first place or -1 |
| NameCompress.EmitsSoundNames | src/inet/r_comp.c:250-301 | whether a name can be packed at all depends only on its labels (1 to 63 bytes each, none empty but one at the end), never on the names listed |
| NameCompress.EmittedDecodes | src/inet/r_comp.c:250-301 | the bytes stored for a text spell that text up to case wherever they stand behind the listed names, if they hold no pointer or it is aimed below 0x4000 |
| NameCompress.StoredEnding | src/inet/r_comp.c:253-258 | what is stored ends in the root byte, or in a pointer that leads to the place matched if and only if that place is below 0x4000, and to its remainder modulo 0x4000 otherwise |
| Sharing.SharesLongest | src/inet/r_comp.c:250-301 | what is stored is the labels in front of the longest listed suffix in full, each a length and its bytes, and then the pointer to the first place where that suffix is listed, or all labels and a root byte when none is |
| Sharing.SavedPlaces | src/inet/r_comp.c:260-264 | what is recorded is the place of each label stored, in order |
| Sharing.ListedPlaces | src/inet/r_comp.c:260-264 | of those as many are listed as fit in front of a NULL before the end of the array |
| NameCompress.SavedAreGood | src/inet/r_comp.c:260-264 | every place recorded for sharing is then the start of a complete name suffix in the message |
| NameCompress.PutLabel | src/inet/r_comp.c:267-282 | the unescaped bytes of one label are stored before the end of the buffer, and the text goes on at the next label |
| NameCompress.StoreLabel | src/inet/r_comp.c:266-293 | a label and its length byte are stored, unless it is empty before the end of the text, too long, or does not fit |
| NameCompress.LookUp | src/inet/r_comp.c:252-253 | the search sees only the names listed before the call, however many labels have been stored and recorded since |
| NameCompress.Record | src/inet/r_comp.c:260-264 | a place is appended to the list exactly while its array has room for it and the NULL after it |
| NameCompress.Forget | src/inet/r_comp.c:277-278 | a failing call cuts the list back to what was listed before |
| NameCompress.FindNull | src/inet/r_comp.c:243-247 | the list to search ends at its NULL |
| NameCompress.Compress | src/inet/r_comp.c:221-302 | the size returned, the bytes stored, everything outside them unchanged, and the list afterwards, on success and on each failure |
| NameQuirks.UntidyNameIsNotShared | src/inet/r_comp.c:283-287 | `a..` is packed as `a` although the comment there rules it out, and such a text is not found when `a` is listed while `A.` is |
| NameQuirks.ShortBufferKeepsEntry | src/inet/r_comp.c:253-259 | a concrete failing call after which the list names a suffix that is not in the message, because that exit does not cut the list back |
| NameQuirks.FarPlaceWraps | src/inet/r_comp.c:253-258 | messages with `a` listed at 0x4000 and a root byte at their start, in which the packed `a` expands, with the right size, to no labels at all |
| NameQuirks.CutPointerIsNotSkipped | src/inet/r_comp.c:179-184 | a concrete name whose pointer the end of the message cuts in two, which expands and is not skipped |
| MessageRuns.DataKeepsSound | src/inet/r_comp.c:260-265 | writing other data behind the names leaves every name and every listed place readable |
| MessageRuns.NewNameHolds | src/inet/r_comp.c:221-302 | a successful call on a good list, in a buffer of any size, leaves its name readable, all earlier bytes unchanged and every listed place good, if it shares nothing or the place it shares is below 0x4000 |
| MessageRuns.FailureChangesList | src/inet/r_comp.c:254-255 | a failing call changes what is listed if and only if it found a listed suffix, had room for all but its pointer, and had recorded a place by then |
| MessageRuns.FailureKeepsSound | src/inet/r_comp.c:253-299 | a failing call leaves all names readable and all listed places good if and only if it does not change what is listed |
| MessageRuns.RunIsSound | src/inet/r_comp.c:221-302 | after any sequence of calls sharing one list, in a buffer of any size, with other data between, failing calls included but for those that leave stale places, and successful ones but for those whose pointer is aimed at 0x4000 or beyond, all names are readable and all listed places good |
| MessageRuns.HeldNameExpands | src/inet/r_comp.c:129-206 | a readable name expands, and is skipped, by its own size, to its labels up to case |
| MessageRuns.RoundTrip | src/inet/r_comp.c:129-302 | the compression round trip (section 4.1.4 of RFC 1035): after any such run, in a buffer of any size, dn_expand() at each packed name returns the size dn_comp() returned and the same labels up to case, unless there is no room or a label shows white space; __dn_skipname() returns that size too |
| MessageLinks.SavedOnName | src/inet/r_comp.c:260-264 | every place recorded for sharing is the start of a label, or the root, of the name being stored |
| MessageLinks.MarkOfStored | src/inet/r_comp.c:250-301 | following the labels stored from the start of the name comes to the root byte, or to the pointer for the place matched |
| MessageLinks.RunIsLinked | src/inet/r_comp.c:221-302 | in every run all listed places are on names packed in it, and each name ends at its root or in a pointer to a label of an earlier one, whatever other data stands between |
| MessageLinks.PointersLeadBack | src/inet/r_comp.c:242-265 | in every run the pointer of each name leads to the start of a label of a name packed earlier in the run, complete before the name holding the pointer began |
| Query.ReadQuestion | src/inet/r_send.c:264-273 | a question is read, with its name expanded into a buffer of 1026 bytes, or found malformed |
| Query.SameQuestionIsAlike | src/inet/r_send.c:257-280 | questions are taken for the same exactly when type and class are equal and the names differ in the case of letters A to Z alone |
| Query.NameInQuery | src/inet/r_send.c:257-280 | the loop over the questions, read wherever they lead in memory, is the lookup that Query.LookupDecides characterises |
| Query.LookupDecides | src/inet/r_send.c:257-280 | for any number of questions: 1 exactly when the question is listed, up to case, before anything malformed; else -1 exactly when something is malformed; else 0 |
| Query.QueriesMatch | src/inet/r_send.c:307-330 | the comparison of two messages is the one that Query.MatchDecides characterises |
| Query.MatchDecides | src/inet/r_send.c:307-330 | for any number of questions, malformed ones included: 0 exactly when the counts differ, or a question of the first message that comes before anything malformed is missing from a second that is sound; else -1 exactly when the first is malformed; else 1 |
| Query.IncludesAllOneToOne | src/inet/r_send.c:296-303 | for as many questions on both sides, with all of the first found in the second, the mapping is one-to-one if and only if none is asked more often in the first |
| Query.NoRepeatOneToOne | src/inet/r_send.c:296-303 | without a repeated question in the first list, finding all is the same as a one-to-one mapping |
| Query.RepeatsMislead | src/inet/r_send.c:296-303 | a list repeats a question if and only if some other list makes the comparison succeed without a one-to-one mapping |
| Query.MatchIsOneToOne | src/inet/r_send.c:307-330 | on sound messages: when the result is 1, when it means the documented one-to-one mapping, and that it always does if the first message repeats no question |
| Query.RepeatMatches | src/inet/r_send.c:307-330 | two concrete messages, one asking a question twice, that match without a one-to-one mapping |
| Query.MalformedMatches | src/inet/r_send.c:307-330 | a concrete message of one malformed question, which every sound message of one question matches, though not the other way round |
| Query.OneQuestionMatch | src/inet/r_send.c:307-330 | for messages of one question: 1 means equal questions up to case or a malformed second one, 0 different ones, -1 a malformed first one |
| QueryBuilder.AddQuestion | src/inet/r_mkqry.c:125-134 | the question is stored behind the header exactly when the name is sound and it fits; its labels are listed |
| QueryBuilder.AddCompletion | src/inet/r_mkqry.c:141-154 | the completion domain is packed behind the question, sharing its labels, with the fixed record fields |
| QueryBuilder.AskName | src/inet/r_mkqry.c:123-156 | QUERY and NS_NOTIFY_OP: the whole message or -1, and nothing written past the buffer length |
| QueryBuilder.AskInverse | src/inet/r_mkqry.c:158-178 | IQUERY: the whole message or -1, and nothing written past the buffer length |
| QueryBuilder.Resolver.MakeQuery | src/inet/r_mkqry.c:84-243 | the message, its size, the next message id, h_errno, and what is untouched, for every operation and every failure |
| RequestFields.HeaderFields | src/inet/r_mkqry.c:107-112 | a server reads back the id, the operation, recursion and no other flag, and the four counts from the header's twelve bytes |
| RequestFields.RecordFields | src/inet/r_mkqry.c:147-154 | type, class, time to live and length are read back from the fixed fields of a record |
| RequestFields.InverseFields | src/inet/r_mkqry.c:158-178 | an inverse query is built exactly if its 23 bytes and the data fit, and reads back as no question and one record for the root with the data |
| RequestFields.QueryFields | src/inet/r_mkqry.c:112-156 | a query or notification reads back as one question, and one additional record of type 10 without data exactly if it is a notification with a completion domain |
| QueryAgreement.QuestionReadsBack | src/inet/r_mkqry.c:122-156 | the question read from a built query or notification, with or without a completion record, is the one asked, its name up to case, and ends where the question section does |
| QueryAgreement.RequestSection | src/inet/r_mkqry.c:122-156 | the readers see exactly that one question, or refuse its name |
| QueryAgreement.QueryAnswersLookup | src/inet/r_send.c:257-280 | res_nameinquery() finds a question in a built query or notification exactly when it is the one asked, in its plain spelling up to case; -1 exactly when the readers refuse the name |
| QueryAgreement.QueryMatchesItself | src/inet/r_send.c:307-330 | res_queriesmatch() of a built query or notification with itself is 1, unless the readers refuse its name, when it is -1 |
| QueryAgreement.CompletionReadsBack | src/inet/r_mkqry.c:138-156 | the completion domain of a built notification, which may share labels with the question, expands from the message to its labels up to case, by its own size, as does __dn_skipname(), unless it shares a label at 0x4000 or beyond |
| SendTrace.NeverSentAgain | src/inet/r_send.c:360-363 | in a run that keeps the log's rule, nothing is sent to a server after it was marked bad |
| SendTrace.SentToPeer | src/inet/r_send.c:559-620 | in a log that keeps the rules every query goes over an open socket of its kind, and if that is connected, then to the server the query is for; a circuit always is |
| SendTrace.OpensBalance | src/inet/r_send.c:809-818 | a log that keeps the rules has closed every socket it opened, but for one still open |
| SendTrace.EveryTurnTaken | src/inet/r_send.c:357-358 | the turns of a call go through all servers in order, round by round: whatever turn is reached, every server had its turn in every round before |
| SendTrace.GivesUpInVain | src/inet/r_send.c:786-800 | a call that gives up has entered the turn of every server in every round it made, which are all rounds unless a circuit was run, and no query sent in any of its passes was answered, in the mode of that pass |
| SendTrace.FirstAnswerReturned | src/inet/r_send.c:500-784 | the first pass that is answered, over a circuit or by datagram, is the last of the call, which returns the size of that answer |
| ResolverSend.Resolver.Close | src/inet/r_send.c:809-818 | an open socket is closed and both flags cleared; nothing happens otherwise |
| ResolverSend.Resolver.MarkBad | src/inet/r_send.c:427-429 | the server is marked, the socket closed |
| ResolverSend.Resolver.JoinCircuit | src/inet/r_send.c:411-432 | afterwards there is a circuit to the server, or no socket, with the server marked if it would not connect |
| ResolverSend.Resolver.Circuit | src/inet/r_send.c:399-518 | one attempt over a virtual circuit: socket, flags, marks and log for every way it can go; a reset is tried again once, and a whole reply ends the call with its size |
| ResolverSend.Resolver.OpenDatagram | src/inet/r_send.c:530-543 | afterwards there is a datagram socket, or no socket at all |
| ResolverSend.Resolver.JoinOrPart | src/inet/r_send.c:559-610 | the datagram socket is connected to the one server that can answer, or to none; a failure marks the server |
| ResolverSend.Resolver.SendDatagram | src/inet/r_send.c:530-620 | the query is sent over the datagram socket, or the failure has closed it |
| ResolverSend.Resolver.Await | src/inet/r_send.c:622-784 | what becomes of the reply: it is returned unless nothing came, it was refused, or it is truncated, which has a circuit used |
| ResolverSend.Resolver.Datagram | src/inet/r_send.c:520-784 | one attempt by datagram, including rejection and the switch to a circuit for a truncated answer; a reply that is none of these ends the call with its size |
| ResolverSend.Resolver.Attempt | src/inet/r_send.c:359-785 | one pass from same_ns, by the laws of passes: a query is sent unless the server is bad or there is no socket or connection, the server is marked if connecting or sending fails or it rejects the query, an answer ends the call, and only a truncated reply or the first reset has the server asked again |
| ResolverSend.Resolver.Turn | src/inet/r_send.c:357-785 | a server's turn: all its passes, one but for those asked again, and the effect on the retry counter |
| ResolverSend.Resolver.Send | src/inet/r_send.c:332-800 | over all call sequences: the log keeps the rules and the two flags tell what the open socket is and where it leads; for every network the passes are those of the servers' turns in order, at most two more than servers and tries, each in its mode; the first answered pass ends the call with the size of its answer, a call without a socket ends with its errno, and a call that gives up had no answer, has made all its rounds, and reports the error of the last circuit or whether any server was heard of |
| ResolverSearch.QueryTextFits | src/inet/r_qry.c:352-380 | the text put together fits its buffer; a bare name loses at most one trailing dot |
| ResolverSearch.QualifiedText | src/inet/r_qry.c:378-379 | within a domain the text asked for is the name, a dot and the domain, each cut at 1025 bytes |
| ResolverSearch.BareText | src/inet/r_qry.c:366-376 | as it is, a name is asked for without its last byte exactly if that is a dot and the rest fits |
| ResolverSearch.DomainQuery | src/inet/r_qry.c:257-314 | what one more domain query does to a search under way: it is answered, refused, or goes on |
| ResolverSearch.Search | src/inet/r_qry.c:196-333 | the trace law for every name, option setting and oracle: which queries are made, in which order, when the search stops and which result and h_errno it leaves |
| ResolverSearch.BareNameOnce | src/inet/r_qry.c:236-320 | a search that fails other than by a refused connection asks for the name as it is exactly once |
| ResolverSearch.DomainsInOrder | src/inet/r_qry.c:252-312 | the domains asked for are the first m of the list, each once, in order |
| ResolverSearch.ErrorsAreProper | src/inet/r_qry.c:122-188 | no query of a search leaves an h_errno but HOST_NOT_FOUND, TRY_AGAIN, NO_RECOVERY or NO_DATA, whatever the exchanges with the servers were |
| ResolverSearch.ErrorHasCause | src/inet/r_qry.c:144-188 | the error after any query of a search was caused by the last exchange that was not a sound answer: 1 by reply code 3, 2 by no reply or code 2, 4 by code 0 without answers, 3 by no query or any other code |
| ResolverSearch.QueryReturns | src/inet/r_qry.c:144-188 | a query returns the bytes of a sound answer and -1 otherwise |
| ResolverSearch.SearchOrder | src/inet/r_qry.c:236-314 | said of the bytes of the name: whether it is asked for first or last, whether domains are tried, and at which errors they cease to be |
| ResolverSearch.FailureReports | src/inet/r_qry.c:322-332 | what a failing search reports, without exception: the error of the bare name if that was asked first, else NO_DATA if any domain left it, else TRY_AGAIN if any server failed, else the error of the last query |
| AddrSort.FirstMatch | src/inet/ghstnmad.c:1621-1625 | the index of the first sort-list entry that matches, or their number |
| AddrSort.MatchesByBits | src/inet/ghstnmad.c:1622-1624 | an address is in a net exactly when they differ in no bit of the mask and the net has none outside it |
| AddrSort.SwapKeepsGroups | src/inet/ghstnmad.c:1636-1644 | swapping neighbours of different rank leaves the entries of each rank in their order |
| AddrSort.Insert | src/inet/ghstnmad.c:1634-1647 | one inner loop sinks an entry to its place: one more entry in order, every rank's entries in their old order, nothing else touched |
| AddrSort.Sort | src/inet/ghstnmad.c:1610-1650 | addrsort() leaves the first num entries arranged rank by rank, each rank in its old order, although it starts only at the first descent |
| AddrSort.ArrangedIsOrderedPermutation | src/inet/ghstnmad.c:1610-1650 | that arrangement is a permutation of the list, ordered by rank |
| AddrSort.ArrangedIsTheOnlyOne | src/inet/ghstnmad.c:1610-1650 | order and stability leave no other arrangement |
| AddrSort.OrderedIsUntouched | src/inet/ghstnmad.c:1628-1631 | exactly the lists already in order are left as they are |
| SearchList.WordsReadBack | src/inet/r_init.c:413-428 | words written with a blank between are cut apart again as they were |
| SearchList.CopyText | src/inet/r_init.c:410-412 | defdname holds as much of the line as fits, cut at a newline, as a C string |
| SearchList.SearchTextIs | src/inet/r_init.c:402-416 | what is taken of a line runs from its first byte that is neither blank nor tab to the newline, the end, or 1024 bytes |
| SearchList.SpansAreWords | src/inet/r_init.c:420-428 | the places the loop finds are those of the blank-separated words |
| SearchList.Tokenise | src/inet/r_init.c:417-433 | dnsrch lists exactly the first six words, each a C string inside defdname, and then NULL |
| SearchList.SetSearch | src/inet/r_init.c:402-436 | a whole search line: ignored without a domain, else the list of the first six of its words; the last byte of defdname stays NUL |
| DesTables.FPInvertsIP | src/inet/rusrpass.c:633-656 | FP read through IP is the identity on all 64 positions |
| DesTables.IPInvertsFP | src/inet/rusrpass.c:633-656 | and IP read through FP |
| Des.RoundUndoesItself | src/inet/rusrpass.c:857-914 | a round seen from the other side undoes itself, whatever its key |
| Des.CipherUndone | src/inet/rusrpass.c:843-929 | for every block and any keys, running with the keys in reverse order restores the block |
| Des.DesInversion | src/inet/rusrpass.c:843-929 | decryption undoes encryption and the other way round, for every block and every key |
| Des.CipherComplement | src/inet/rusrpass.c:843-929 | complementing block and round keys complements the result |
| Des.ScheduleComplement | src/inet/rusrpass.c:719-762 | complementing the key complements every bit of every round key |
| Des.DesComplement | src/inet/rusrpass.c:719-929 | the complementation property, in either direction |
| DesReference.RoundWords | src/inet/rusrpass.c:857-914 | a round on bit arrays is a round of an independent cipher on words, with its own packed tables, shifts and masks, for every block and round key |
| DesReference.KeyWords | src/inet/rusrpass.c:719-762 | so are the round keys, in both directions |
| DesReference.CipherWords | src/inet/rusrpass.c:843-929 | for every block and key and in both directions the cipher on bit arrays is the cipher on words |
| DesKnownAnswers.KnownAnswers | src/inet/rusrpass.c:633-929 | twelve blocks under three keys and what they are enciphered to, worked out round by round: the zero block under the zero key makes 8CA64DE9C1B123A7, and together the blocks under that key use every entry of every selection table |
| DesBoxes.RowPermutes | src/inet/rusrpass.c:770-810 | each row of each selection table is a permutation of the numbers below sixteen |
| DesBoxes.OneBitChanges | src/inet/rusrpass.c:770-810 | changing one of the six bits chosen changes at least two of the four selected, for every table and choice |
| DesBoxes.MiddleBitsChange | src/inet/rusrpass.c:770-810 | so does changing the middle two |
| DesCipher.BlockCipher.RotateLeft | src/inet/rusrpass.c:745-753 | a key half is rotated one place in place |
| DesCipher.BlockCipher.ChooseHalves | src/inet/rusrpass.c:731-734 | permuted choice 1 fills both halves |
| DesCipher.BlockCipher.PickRow | src/inet/rusrpass.c:757-760 | permuted choice 2 fills one row of the schedule and leaves the others |
| DesCipher.BlockCipher.SetKey | src/inet/rusrpass.c:719-762 | the in-place schedule is that of FIPS PUB 46-3 for the key, and the halves end where they began |
| DesCipher.BlockCipher.HalvesRestored | src/inet/rusrpass.c:740-753 | the shifts of a schedule add up to a full turn of each half |
| DesCipher.BlockCipher.Mix | src/inet/rusrpass.c:871-876 | the expanded right half is combined with the round key |
| DesCipher.BlockCipher.Select | src/inet/rusrpass.c:877-901 | the selection functions, one four-bit group at a time, on tables that DesReference, DesKnownAnswers and DesBoxes pin down |
| DesCipher.BlockCipher.DoRound | src/inet/rusrpass.c:857-914 | the in-place loops of one round on L and R, one 64-entry array, are the round function |
| DesCipher.BlockCipher.Encrypt | src/inet/rusrpass.c:843-929 | the block is replaced by the cipher of it with the schedule in the direction asked for; the rest of the array is untouched |
| DesCipher.BlockCipher.Load | src/inet/rusrpass.c:849-853 | the block goes through the initial permutation into the array of both halves |
| DesCipher.BlockCipher.Exchange | src/inet/rusrpass.c:915-922 | the halves are exchanged in place |
| DesCipher.BlockCipher.Unload | src/inet/rusrpass.c:923-928 | the block comes back through the final permutation; the rest of the caller's array is untouched |
| PasswordCodec.KnotReadsBack | src/inet/rusrpass.c:584-620 | any 66 bits survive being written as eleven cipher characters |
| PasswordCodec.ClearReadsBack | src/inet/rusrpass.c:552-582 | up to eight 7-bit characters survive being packed into a block |
| PasswordCodec.KnotCharRises | src/inet/rusrpass.c:600-620 | the cipher characters come in the order of their values, so that the alphabet is ./0-9A-Za-z |
| PasswordCodec.KnotValueStands | src/inet/rusrpass.c:588-592 | the value of a character of the alphabet is its position there |
| PasswordCodec.KnotValueSteps | src/inet/rusrpass.c:588-592 | the values of all other characters, signed ones included |
| PasswordCodec.KnotBlockPacked | src/inet/rusrpass.c:584-597 | the bits of a cipher character, most significant first, make its position in the alphabet |
| PasswordCodec.ClearBlockPacked | src/inet/rusrpass.c:552-564 | the bits of a clear character, most significant first, make its low seven bits, and a zero bit follows |
| PasswordChain.Block8RoundTrip | src/inet/rusrpass.c:517-550 | a block of up to eight 7-bit characters is restored by decryption with the same key |
| PasswordChain.EncryptedHasNoDollar | src/inet/rusrpass.c:600-620 | the cipher characters never include `$` or NUL |
| PasswordChain.ChainRoundTrip | src/inet/rusrpass.c:480-515 | for every string of 7-bit characters of any length and every key, decryption of the chained encryption is the string |
| PasswordChain.EncryptedLength | src/inet/rusrpass.c:480-494 | the cipher text has twelve characters for every eight begun and no NUL |
| PasswordChain.EncryptedCell | src/inet/rusrpass.c:484-494 | each block fills twelve characters, the last a dollar, and its key is the block before it in clear |
| PasswordKnownAnswer.PasswordKnown | src/inet/rusrpass.c:484-550 | `a` under the key `key` is `.d4PzR4JSDk` and a dollar, and that is `a` again |
| PasswordChain.PasswordCoder.PackClear | src/inet/rusrpass.c:552-564 | low seven bits of up to eight characters, a zero bit behind each, most significant first |
| PasswordChain.PasswordCoder.PackKnot | src/inet/rusrpass.c:584-598 | six bits of up to eleven characters, which for a character of the alphabet ./0-9A-Za-z are its position there, most significant first |
| PasswordChain.PasswordCoder.UnpackClear | src/inet/rusrpass.c:566-582 | ten characters of seven bits each, cut at the first that is zero |
| PasswordChain.PasswordCoder.UnpackKnot | src/inet/rusrpass.c:600-620 | eleven characters of the alphabet, each at the position its six bits make |
| PasswordChain.PasswordCoder.Prepare | src/inet/rusrpass.c:524-527 | the schedule is set from the key's characters and the E table loaded |
| PasswordChain.PasswordCoder.Encrypt8 | src/inet/rusrpass.c:517-532 | one block on the static buffers is enciphered as the block function says |
| PasswordChain.PasswordCoder.Decrypt8 | src/inet/rusrpass.c:536-550 | one block on the static buffers is deciphered as the block function says |
| PasswordChain.ThereAndBack | src/inet/rusrpass.c:1003-1038 | a password stored and fetched through the in-place routines with one key comes back, with just enough room in both buffers |
| PasswordChain.DecryptedLength | src/inet/rusrpass.c:498-515 | each block of any cipher text makes at most ten characters, which bounds the room the result needs |
| PasswordChain.PasswordCoder.Strcat | src/inet/rusrpass.c:489-490 | a string is put behind another inside the buffer, and nothing behind it changes |
| PasswordChain.PasswordCoder.Encrypt | src/inet/rusrpass.c:480-494 | the loop over a string leaves the chained cipher text as a C string in the caller's buffer, and nothing behind it |
| PasswordChain.PasswordCoder.Decrypt | src/inet/rusrpass.c:498-515 | the loop over a cipher text leaves the chained clear text as a C string in the caller's buffer, and overwrites each `$` it passes with a NUL |
| PasswordChain.PasswordCoder.DecryptBlock | src/inet/rusrpass.c:507-511 | a block is cut out, decrypted and put behind the result so far |
| PasswordChain.PasswordCoder.CutChunk | src/inet/rusrpass.c:507-508 | the next block ends at a `$` or at the end of the text |
| InetText.ReadNumber | src/inet/i_addr.c:80-103 | the digit loop reads a C number, in 32 bits, of the base its first characters choose |
| InetText.DigitValues | src/inet/i_addr.c:90-101 | which bytes are digits, in which base, and their values |
| InetText.NumberFoldsCase | src/inet/i_addr.c:80-103 | numbers read the same in either case of their letters and their mark |
| InetText.OctalEights | src/inet/i_addr.c:90-95 | 08 is 8 and 019 is 17, as nothing keeps 8 and 9 out of octal numbers |
| InetText.ReadParts | src/inet/i_addr.c:73-117 | all numbers but the last are stored, at most three and each a byte |
| InetText.Aton | src/inet/i_addr.c:63-148 | the address of a text of one to four numbers, or failure |
| InetText.AtonReadsDotted | src/inet/i_addr.c:118-148 | on numbers with dots between, each in decimal, octal or hexadecimal and read modulo 2 to the 32nd, with any text behind that cannot belong to them: the address if and only if there are at most four, each but the last a byte and the last no more than the bytes left, and the text behind is empty or begins with white space |
| InetText.Network | src/inet/i_net.c:43-98 | the low bytes of up to four numbers, or INADDR_NONE, and exactly when a fifth number is stored behind the array of four |
| InetText.FiveNumbersOverrun | src/inet/i_net.c:85-92 | of numbers with dots between, exactly five overrun the array |
| InetText.OneToFiveOverruns | src/inet/i_net.c:85-92 | as 1.2.3.4.5 does |
| InetText.Fold | src/inet/i_net.c:93-97 | the numbers' low bytes are shifted together |
| InetText.NetworkReadsDotted | src/inet/i_net.c:43-98 | on any such numbers and text behind, their low bytes as digits to the base 256, or INADDR_NONE when there are more than four or the text behind begins otherwise |
| InetText.FirstIsHighest | src/inet/i_addr.c:118-148 | 1.2.3.4 is 0x01020304 to both readers and the writer, and a last number fills up the bytes left |
| InetText.ReadNumbers | src/inet/i_net.c:43-84 | the loop stores all numbers but the last, or finds more than five |
| InetText.NumberReadsSpelling | src/inet/i_addr.c:75-103 | every number is read back modulo 2 to the 32nd from its decimal, octal and hexadecimal spelling, a plain 0 by way of octal |
| InetText.NtoaReadsBack | src/inet/i_ntoa.c:41-54 | for every address, inet_aton() and inet_network() of its text give its host-order value |
| InetText.BroadcastLooksLikeError | src/inet/i_addr.c:46-54 | inet_addr() and inet_network() of an address's text give INADDR_NONE exactly for the broadcast address, which inet_aton() accepts |
| Nsap.Addr | src/inet/i_nsap.c:32-63 | the bytes a text spells, as many as there is room for, or length 0 for a text that spells none; a negative maxlen allows as many as its value modulo 2 to the 32nd |
| Nsap.NibbleValues | src/inet/i_nsap.c:27-63 | the hexadecimal digits in either case and their values, and the three separators |
| Nsap.TextLength | src/inet/i_nsap.c:78-92 | the text of n bytes, at most 255, has 2n + n/2 characters, so that the routine's own buffer of 765 always holds it |
| Nsap.Ntoa | src/inet/i_nsap.c:65-94 | the text of up to 255 bytes with its dots and NUL is written into any buffer with room for it, and nothing behind it |
| Nsap.NtoaStatic | src/inet/i_nsap.c:70-77 | the same into the routine's own buffer, for any bytes |
| Nsap.RoundTrip | src/inet/i_nsap.c:32-94 | every string of up to 255 bytes is read back from its text, given the room |
| Nsap.RoundTripCut | src/inet/i_nsap.c:32-94 | whatever the length and the room, exactly the first bytes, up to 255 and the room, are read back |
| SocketState.FreshSound | src/socket.c:161-182 | a new socket satisfies what every socket keeps |
| SocketState.ChildSound | src/accept.c:145-171 | an accepted socket does too, cannot accept itself, and is born with the directions its listener has shut |
| SocketState.StepKeeps | src/connct.c:54-191 | every call keeps: listening implies stream and bound, accepted implies stream, bound and connected, datagram sockets are never connected or shut, a shut stream is connected; and nothing bound, listening, shut or (for streams) connected is taken back |
| SocketState.RunKeeps | src/connct.c:54-191 | the same over every run of calls, polls by accept() and other calls among them, between any two moments |
| SocketState.ShutForGood | src/send.c:81-86 | in every run, once a direction is shut no later send or receive in that direction gets to the interface |
| SocketState.OpenUnlessShut | src/shtdwn.c:33-96 | in every run a direction is open exactly as long as no shutdown() has succeeded in shutting it |
| SocketState.ListensSince | src/listen.c:66-77 | in every run a socket listens exactly from the first listen() the interface agreed to, with the backlog of the latest |
| SocketState.PeerIsLatest | src/connct.c:89-108 | in every run of a datagram socket its peer is the address of the latest connect() that succeeded, or none if that gave none |
| SocketState.BoundOnce | src/bind.c:56-116 | in every run a bind() that succeeds notes the name the interface gives, and every later bind() ends in EINVAL |
| SocketState.ConnectedOnce | src/connct.c:54-191 | in every run of a stream socket, behind a connect() or listen() that succeeded no connect() gets to the interface |
| SocketState.DatagramNeverShut | src/shtdwn.c:53-57 | in every run of a datagram socket each shutdown() ends in ENOTCONN |
| Sockets.LsckSocket.NonblockingCheck | src/csock/c_nblkio.c:37-50 | a connection under way that is ready becomes made |
| Sockets.LsckSocket.Bind | src/bind.c:61-113 | the guards in order, and the record after success and failure |
| Sockets.LsckSocket.Listen | src/listen.c:53-78 | the guards in order; any answer but -1 makes the socket listen |
| Sockets.LsckSocket.Connect | src/connct.c:58-191 | the guards in order, the datagram case, and the stream case |
| Sockets.LsckSocket.Connected | src/connct.c:139-191 | names and flags for a made, a pending and a failed connection |
| Sockets.LsckSocket.Shutdown | src/shtdwn.c:53-96 | the guards in order, and the direction flags |
| Sockets.LsckSocket.SendTo | src/send.c:68-156 | the guards in order for stream, datagram and other sockets |
| Sockets.LsckSocket.Receive | src/recv.c:51-124 | the guards of recv() and recvfrom(), a shut direction reading as end of data |
| Sockets.SocketTable.constructor | src/socket.c:62-63 | the empty table is matched |
| Sockets.SocketTable.FreeSlot | src/socket.c:131-142 | the first free slot, if there is one; if there is none, and only then, one entry past the table is looked at |
| Sockets.SocketTable.Claim | src/accept.c:95-140 | a descriptor and a slot are had together, or the descriptor is closed again |
| Sockets.SocketTable.AllocFd | src/socket.c:118-127 | a descriptor with the socket handler is opened, which leads nowhere yet |
| Sockets.SocketTable.FreeFd | src/socket.c:144-150 | that descriptor is closed again, and table and descriptors match as before |
| Sockets.SocketTable.Accepted | src/accept.c:154-171 | the new record takes the peer's name and becomes accepted and connected |
| Sockets.SocketTable.Install | src/socket.c:152-164 | the new record takes its slot and its descriptor, and table and descriptors match |
| Sockets.SocketTable.Uninstall | src/socket.c:166-172 | the clean-up frees both, and table and descriptors match |
| Sockets.SocketTable.Socket | src/socket.c:88-223 | success exactly when every resource is there and the interface agrees: a new descriptor leads to a new record in a slot that was free; any failure leaves table and descriptors as they were; each record owns its interface data |
| Sockets.SocketTable.Accept | src/accept.c:53-184 | the guards; a new descriptor with the listener's record copied, accepted and connected, and the peer's name cut to the caller's length, exactly when the interface answers 0; any failure leaves table and descriptors as they were, and an answer that is neither 0 nor -1 returns a descriptor that is closed; each record still owns its interface data exactly if the interface gave the new one its own, or the listener has none |
| Sockets.SocketTable.AcceptOn | src/accept.c:95-181 | the same from the new descriptor on, with the data freed on failure |
| Sockets.SocketTable.Settle | src/accept.c:149-181 | the interface's answer: the new record is completed, or it, its data, its slot and its descriptor are freed |
| Sockets.StillApart | src/accept.c:146-181 | after either answer no two records share data and none has freed data, if and only if the interface stored data of its own or the listener has none |
| Sockets.SocketTable.Do | src/socket.c:225-241 | a call on a descriptor affects the record it leads to, as the step says, and no other; occupied slots and socket descriptors stay in one-to-one correspondence and every record sound and owner of its data |
| Sockets.SocketTable.CloseSocket | src/close.c:42-83 | closesocket() by the program frees the record, its data and its slot on success but leaves the descriptor open, so table and descriptors match afterwards unless the descriptor led to a socket that its interface could and did close; a failing call only polls the record |
| Sockets.SocketTable.Release | src/close.c:68-80 | the record's data is freed and its slot cleared |
| Sockets.SocketTable.Close | src/fsext.c:136-143 | close() releases slot, data and descriptor on success, only polls the record on failure, and keeps the correspondence |
| Sockets.CloseOnly | src/close.c:42-83 | one socket opened and closed by closesocket(): the table is empty, and the descriptor still leads to the freed record |

## Left out

- NameExpand.Expand: the bytes it looks at must be in memory: the one just past the message if the last byte before it begins a label or a pointer, or the first two of a name that starts past the end.
- NameCompress.Compress: the listed places must lead to complete names, as dn_comp documents and as they do after every call but the failing ones of MessageRuns.FailureKeepsSound; the search over other lists may not end.
- MessageRuns.RoundTrip: calls whose pointer is aimed at a place at 0x4000 or beyond are excluded: exactly then it leads elsewhere (NameCompress.StoredEnding), as NameQuirks.FarPlaceWraps shows. A message of at most 0x4000 bytes meets none (MessageRuns.AllLead); calls that share nothing or a place below are included, however long the message.
- Query.NameInQuery: the questions, which may lead past the end of the message, must stay in memory, which the code does not check; the same holds for QueriesMatch.
- QueryBuilder.Resolver.MakeQuery: the header's bit fields are modelled as the byte they form, and the update operations (ALLOW_UPDATES) as unknown ones.
- ResolverSend.Resolver.Send: hooks, debug output and real time are not modelled; replies that are ignored, by res_isourserver, id or question, are one step of the oracle, so passes are counted and not waits; the bytes of the answer are not modelled, and the list of servers stays the same from call to call.
- ResolverSearch.Search: building and sending a query is the oracle, and the host alias is a parameter.
- AddrSort.Sort: an address is a pointer and the 32 bits found there.
- SearchList.SetSearch: the line is what follows the keyword; the LOCALDOMAIN variable and the other lines of the file are not modelled.
- PasswordChain.PasswordCoder.Encrypt: the source has it switched off; it is modelled as what Decrypt undoes. The result must have the room its caller must give it; the same holds for Decrypt.
- InetText.Aton: the bitwise or of bytes that do not overlap is modelled as a sum, and the byte order of the stored address by its host-order value.
- SocketState.StepKeeps: an interface may bind an unbound socket on the way, or try to, and change its name with that, settle a pending connection and set the blocking flag; other changes of an interface to the record are not modelled.
- Sockets.SocketTable.Socket: the choice of the interface and of the default protocol is a parameter; what a failing interface leaves allocated is not modelled.
- socketpair, ioctl, select, socket options and the names of peers: easy members beside the table.
- Inline assembly, the VxD, DPMI and mailslot interfaces: foreign calls, modelled as answers.
- getanswer, the hosts and services files, .netrc, .ini files, netgroups, rcmd, rexec, debug printing: input and output.
- inet_makeaddr, inet_netof, inet_lnaof, res_isourserver, readv and writev: true but easy.
