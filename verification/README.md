# MateCORBA verification

A Dafny model of the parts of the MateCORBA ORB where a small mistake corrupts a message, loses a request or
calls the wrong operation, with proofs of what those parts are for. `dafny verify dfyconfig.toml` checks
everything; nothing in it is meant to be executed.

Code that works on buffers, lists and locks is modelled by classes and methods with loops, proved against
specification functions; code that is recursive over types is modelled by functions. Each method that changes
shared state is what one thread does while it holds the locks it needs, so a run is any sequence of calls.

| files | what they model |
|---|---|
| `Common` | what several modules share: options, maxima, concatenation |
| `Idents`, `SkelDispatch`, `IdlInterfaces` | the IDL compiler: inheritance traversal, the sorted operation list, the nested switches it is compiled into (an AST with an interpreter), and the numbering of methods |
| `Cdr` | byte orders, alignment, and messages as cells that are either bytes or don't-care padding |
| `TypeCodes`, `TypeCodeRoundTrip`, `TypeCodeEquality`, `TypeCodeCodec`, `TypeCodeDecoder` | TypeCodes as shared objects, their encoding with back references across nested encapsulations, decoding, and equality |
| `SendBuffer`, `RecvBuffer` | the gathered output message and the input cursor |
| `Values`, `ValueRoundTrip`, `ValueCodec` | values of any TypeCode and their marshalling |
| `Layout`, `Sequences` | the in-memory layout of values, the walkers over it, and growing sequences |
| `LinkConnection`, `CommandQueue` | the output queue of a connection, and commands for the I/O thread |
| `GiopReceive`, `PendingReplies` | message framing, fragments, and requests that wait for replies |
| `Dispatcher` | worker threads that own keys, and the requests pushed to them |
| `EndToEnd` | both ends together: a value through a send and a receive buffer, and messages through an output queue and a receiving channel |
| `Ior`, `IorCodec`, `IorText` | object references: profiles, components, object keys and the `IOR:` text |
| `KnownTypeCodes`, `KnownValues`, `KnownReferences` | messages written out by hand from the CORBA chapters, and that the specified encodings are these |

How things are represented:

- A TypeCode node carries an identity in place of its address; `InHeap` says that one identity is one object,
  so sharing is visible and TypeCodes are finite and acyclic. `Rename` is the same graph under new identities.
- A message under construction is a sequence of cells from address 0 (the GIOP header); `Pad` cells may be any
  byte on the wire (`Fits`).
- Sockets are arbitrary choices: a write takes any prefix, would block, or fails; a read delivers any piece.
- Ghost fields record history (bytes submitted, requests pushed, entries set up) and are never read by the code.

What the model shows about the code, beyond what it promises:

- An indirection's offset is counted from the end of the offset field (`tcpos - (offpos + 4)`), where section
  15.3.5.1 of CORBA 2.6 counts from its start: the field is never the one the standard asks for
  (`TypeCodeRoundTrip.OffsetFromEnd`). The two ends of this ORB agree with each other.
- The decoder's comparison at `corba-typecode.c:1110` mixes `guint` and `ptrdiff_t`. It is modelled for both
  pointer widths (`wide` in a receive buffer). With 32-bit pointers it works modulo 2^32, as it is meant, and every
  TypeCode can be decoded. With 64-bit pointers an offset that points out of the current encapsulation matches
  nothing, and the program aborts: a TypeCode can be decoded exactly if every object that occurs again was met
  first in the same encapsulation (`TypeCodeRoundTrip.Local`). A structure with a member of some structure type and
  a sequence of that type is not of that kind (`TypeCodeEquality.SharedElement`). The condition carries over to
  values (`ValueRoundTrip.LocalValue`) and to whole messages (`EndToEnd.Transfer`).
- `unsigned short` labels from 0x8000 on and negative `char` labels never select their member
  (`Values.LabelMatches`).
- Strings that announce 2^31 bytes or more are rejected whatever follows (`ValueRoundTrip.LongStringRejected`).
- A wide string without a byte-order mark is read as big-endian.
- The size computed for a union is the C compiler's exactly under `Layout.Good`; members whose alignments never
  decrease meet it, a long with a double, twelve characters or a short does not (`Layout.ShortUnion`: 16 bytes
  instead of 24). Marshal and demarshal step over such a union by another size than copy does. Freeing goes to wrong addresses even for some types whose sizes are right
  (`Layout.GapExample`); `Layout.VisitsExact` says exactly which.
- `write_queue_bytes` never shrinks when a flush that made progress ends in EAGAIN or when the queue is dropped:
  the difference is `leaked`, and the field is an upper bound.
- A write whose first vector is empty is dropped although bytes follow (`LinkConnection.LostByte`; the exact
  condition is in `LinkConnection.Connection.Submit`); a fatal direct write leaves the connection in its state.
- A message with an empty body is dispatched without its header being demarshalled or its fragment flag looked at.
- A worker that retires while a policy is in force loses what it has queued, requests and answers
  (`Dispatcher.PolicyLoses`); without a policy it never does. An answer for a worker that has retired is lost, too.
- A callback that is set after its entry has left the pending list, because the connection was lost in between, is
  never called (`PendingReplies.MissedCallback`); every other one is called once.
- Appending a sequence to itself never ends unless it is empty (`Sequences.ConcatSelf`).
- `MateCORBA_sequence_set_size` may show old elements of an inline kind when it grows within the capacity.
- Object keys that disagree are noticed only if the last key differs from the first (`Ior.FirstKeyKept`).
- The components of an IIOP 1.0 profile are sent, but the receiver skips them: such a profile comes back exactly if
  it has none (`Ior.Restorable`).

## Model

| member | source | states |
|---|---|---|
| Idents.StrcmpTransitive | src/idl-compiler/matecorba-idl-c-skels.c:48-52 | The order the operation list is sorted by is transitive, so sorted insertion keeps the whole list sorted |
| Idents.StrcmpAtPrefix | src/idl-compiler/matecorba-idl-c-skels.c:117-165 | Names in order that agree up to a position are ordered by the character there, the terminator first; this is why equal characters are adjacent |
| SkelDispatch.PrintRelayers | src/idl-compiler/matecorba-idl-c-skels.c:117-165 | For every sorted list the generator ends, and fails exactly when a name occurs twice; otherwise the nested switches return operation k exactly on name k and NULL on every other string, have distinct labels in each switch, and never read past the terminator |
| SkelDispatch.PrintCase | src/idl-compiler/matecorba-idl-c-skels.c:145-161 | One case compiles one group of operations: it answers exactly the strings with the group's character |
| SkelDispatch.NextGroup | src/idl-compiler/matecorba-idl-c-skels.c:133-143 | The inner loop collects the longest run of operations with the same next character |
| SkelDispatch.AddCase | src/idl-compiler/matecorba-idl-c-skels.c:117-165 | Appending the case of the next group extends correct dispatch from the first groups to one more, without disturbing the others |
| SkelDispatch.TerminatedGroup | src/idl-compiler/matecorba-idl-c-skels.c:145-150 | A group of more than one whose names all end here holds one name twice: the only failure |
| IdlInterfaces.TraverseHelper | src/idl-compiler/matecorba-idl-utils.c:363-384 | The recursive visit with a visited set adds each unvisited ancestor once, bases first, and ends |
| IdlInterfaces.TraverseParents | src/idl-compiler/matecorba-idl-utils.c:386-406 | For every inheritance DAG exactly the ancestors are visited, each once, bases before the interfaces that inherit from them, the interface itself last |
| IdlInterfaces.InsertSorted | src/idl-compiler/matecorba-idl-c-skels.c:62-114 | Sorted insertion keeps the list sorted and adds exactly one operation |
| IdlInterfaces.AddRelayer | src/idl-compiler/matecorba-idl-c-skels.c:62-114 | One interface contributes its methods, attributes expanded to getter then optional setter, with the indices of its method table; the list stays sorted |
| IdlInterfaces.MethodsDeclared | src/idl-compiler/matecorba-idl-c-skels.c:62-114 | A method table holds exactly what the body declares: every operation, a getter for each attribute, and a setter for each attribute that is not read-only |
| IdlInterfaces.MethodsInOrder | src/idl-compiler/matecorba-idl-c-skels.c:62-114 | A body with an operation, two attributes, another declaration and a read-only attribute, and its table written out: declaration order, getter before setter |
| IdlInterfaces.PrintRelayer | src/idl-compiler/matecorba-idl-c-skels.c:167-193 | Traversal, sorting and generation together: for every interface, dispatch of any string returns the method of that name of the interface or an ancestor with the index of its table, or NULL when there is none; generation fails exactly when two methods clash |
| IdlInterfaces.DispatchesDeclared | src/idl-compiler/matecorba-idl-c-skels.c:167-193 | The dispatcher returns a method for a string if and only if the interface or an ancestor declares it, and then one declared by the interface it names |
| IdlInterfaces.BuildInterfaces | src/idl-compiler/matecorba-idl-c-common.c:463-521 | The method tables built while walking the tree are the interfaces in order, each with its methods in declaration order |
| IdlInterfaces.OutputStubs | src/idl-compiler/matecorba-idl-c-stubs.c:110-156 | The stubs printed carry, for every table in order, the running index of each method |
| IdlInterfaces.NumberingsAgree | src/idl-compiler/matecorba-idl-c-stubs.c:107-156 | Stub, skeleton entry and method table use the same index for the same method |
| Cdr.LoadStore | src/orb/orb-core/corba-typecode.c:274-305 | An n-byte integer stored in either byte order is loaded back modulo 256^n |
| Cdr.LoadSwapped | src/orb/orb-core/corba-typecode.c:274-305 | Loading in the receiver's order and swapping the bytes is loading in the sender's order |
| TypeCodes.LabelSurvives | src/orb/orb-core/corba-typecode.c:148-193 | A union label survives the transfer exactly when the discriminator's C type can represent it |
| TypeCodeRoundTrip.Indirection | src/orb/orb-core/corba-typecode.c:1205-1229 | A back reference written for a completed TypeCode is resolved to the TypeCode at that position with 32-bit pointers, and with 64-bit ones exactly if the position is in the current encapsulation; otherwise decoding fails |
| TypeCodeRoundTrip.OffsetFromEnd | src/orb/orb-core/corba-typecode.c:1218-1227 | The offset field of an indirection counts from its end, and is never the field that counting from its start would give |
| TypeCodeRoundTrip.EncSeen | src/orb/orb-core/corba-typecode.c:1199-1260 | The encoder's register grows by exactly the objects that the walk over the graph meets first, at positions from the current end on; this turns the decoder's condition on positions into one on the graph |
| TypeCodeRoundTrip.Complete | src/orb/orb-core/corba-typecode.c:1171-1175 | Completing a TypeCode keeps the relation of the two registers although the encoder registered it before its children and the decoder after them |
| TypeCodeRoundTrip.DecEncTC | src/orb/orb-core/corba-typecode.c:1078-1278 | With any registers in that relation, decoding what was encoded for one TypeCode gives it under new identities and keeps the relation, or, with 64-bit pointers and an object met again outside its encapsulation, fails; by mutual induction over TypeCodes, members and parameters |
| TypeCodeEquality.EncodeDecode | src/orb/orb-core/corba-typecode.c:1078-1278 | For every acyclic TypeCode graph, at any position of any message, in either byte order, with either pointer width and whatever the padding is: decoding the encoding succeeds if and only if pointers have 32 bits or the graph is `Local`, and then gives the same graph under fresh identities (sharing kept, injective), equality accepts it, and exactly the bytes written are consumed |
| TypeCodeEquality.SharedElement | src/orb/orb-core/corba-typecode.c:1107-1126 | A structure with a structure member and a sequence of the same structure cannot be decoded with 64-bit pointers, in any message, and can with 32-bit ones |
| TypeCodeEquality.EquivRefl | src/orb/orb-core/corba-typecode.c:593-703 | Equality and equivalence are reflexive |
| TypeCodeEquality.EquivSym | src/orb/orb-core/corba-typecode.c:593-703 | Equality and equivalence are symmetric |
| TypeCodeEquality.EquivTrans | src/orb/orb-core/corba-typecode.c:593-703 | Equality and equivalence are transitive |
| TypeCodeEquality.EqualIsEquivalent | src/orb/orb-core/corba-typecode.c:593-703 | Equal TypeCodes are equivalent |
| TypeCodeEquality.EqualIsCanon | src/orb/orb-core/corba-typecode.c:593-703 | Two TypeCodes are equal if and only if they are the same once identities, type names, member names and the tags of structure members are blanked: kinds, repository ids, labels, default index, enumerators, bounds, digits and scale all count |
| TypeCodeEquality.EquivalentIsCanon | src/orb/orb-core/corba-typecode.c:593-703 | Two TypeCodes are equivalent if and only if they are equal in that sense after every alias in them is looked through |
| KnownTypeCodes.KnownRecord | src/orb/orb-core/corba-typecode.c:133-146 | The bytes of a structure or exception with two members, in either byte order: kind, length, flag, ids, count, then name and type of each member |
| KnownTypeCodes.KnownUnion | src/orb/orb-core/corba-typecode.c:148-193 | The bytes of a union: discriminator, default index, count, and label, name and type of each member |
| KnownTypeCodes.KnownEnum | src/orb/orb-core/corba-typecode.c:195-204 | The bytes of an enumeration |
| KnownTypeCodes.KnownAlias | src/orb/orb-core/corba-typecode.c:206-212 | The bytes of an alias |
| KnownTypeCodes.KnownObjRef | src/orb/orb-core/corba-typecode.c:113-118 | The bytes of an object reference type |
| KnownTypeCodes.KnownIndexed | src/orb/orb-core/corba-typecode.c:120-125 | The bytes of a sequence or array: element type, then length |
| KnownTypeCodes.KnownFixed | src/orb/orb-core/corba-typecode.c:240-245 | The bytes of a fixed-point type: two half words |
| TypeCodeCodec.TcEnc | src/orb/orb-core/corba-typecode.c:1199-1260 | The encoder on a send buffer and its list of TypeCodes met so far appends exactly the specified encoding, indirections included, and keeps reserved places |
| TypeCodeCodec.TcEncEncaps | src/orb/orb-core/corba-typecode.c:1240-1258 | The encapsulation's length, reserved before the parameters are written and filled in afterwards, is the one specified |
| TypeCodeCodec.EncodeTypeCode | src/orb/orb-core/corba-typecode.c:1262-1278 | A top-level TypeCode is encoded with an empty register |
| RecvBuffer.Input.Get | src/orb/orb-core/corba-typecode.c:274-305 | Reading an integer aligns, checks the end, and gives the value in the sender's order on either kind of machine; otherwise it fails |
| TypeCodeDecoder.TcDec | src/orb/orb-core/corba-typecode.c:1078-1175 | The decoder on a receive buffer, with either pointer width, reports an error exactly when the specified decoding fails, and otherwise gives its TypeCode, position and register |
| TypeCodeDecoder.Find | src/orb/orb-core/corba-typecode.c:1107-1119 | The search of the completed TypeCodes, with the comparison of either pointer width and coordinates relative to the current encapsulation, finds the one registered at the target position modulo 2^32 if the comparison can reach it |
| TypeCodeDecoder.MatchesTarget | src/orb/orb-core/corba-typecode.c:1110-1113 | The comparison holds for exactly one position: the one the offset points to modulo 2^32, and with 64-bit pointers only if it does not point before the current buffer |
| TypeCodeDecoder.DecodeTypeCode | src/orb/orb-core/corba-typecode.c:1177-1196 | Decoding a top-level TypeCode is the specified decoding from an empty register |
| SendBuffer.FlatPatch | src/orb/orb-core/corba-typecode.c:1240-1258 | Writing at a remembered address changes exactly the bytes of the message that this address holds |
| SendBuffer.Buffer.constructor | src/orb/GIOP/giop-send-buffer.c:478-534 | A new buffer starts a message that is just the header, and may be reused at once |
| SendBuffer.Buffer.Reuse | src/orb/GIOP/giop-send-buffer.c:478-534 | A recycled buffer starts a message exactly as a new one does |
| SendBuffer.Buffer.Unuse | src/orb/GIOP/giop-send-buffer.c:225-242 | After a message any buffer is fit for reuse; exactly the used chunks shrink to the standard size |
| SendBuffer.Buffer.AppendReal | src/orb/GIOP/giop-send-buffer.c:244-275 | Appending memory, merged with the last vector when adjacent, appends its bytes to the message |
| SendBuffer.Buffer.Append | src/orb/GIOP/giop-send-buffer.c:344-354 | Small data is copied and large data referenced; either way its bytes are appended |
| SendBuffer.Buffer.AlignTo | src/orb/GIOP/giop-send-buffer.c:356-385 | Alignment appends the padding that takes the message to the boundary, and there is room for it in the chunk |
| SendBuffer.Buffer.AppendAligned | src/orb/GIOP/giop-send-buffer.c:387-431 | Aligned data fits its chunk; with no data, the returned address is a new one that holds the reserved bytes |
| SendBuffer.Buffer.AppendString | src/orb/GIOP/giop-send-buffer.c:536-562 | A string is its length with terminator, its bytes and the terminator, whether copied or referenced |
| SendBuffer.Buffer.FillIn | src/orb/orb-core/corba-typecode.c:1254-1257 | Filling in a reserved place replaces exactly those four bytes of the message |
| SendBuffer.Buffer.NextIndirect | src/orb/GIOP/giop-send-buffer.c:288-325 | The next chunk has the room asked for, and the message is unchanged |
| SendBuffer.Buffer.ContentsFit | src/orb/GIOP/giop-send-buffer.c:225-431 | What writev sends is the flat message, and its header's size field is the total minus 12 |
| SendBuffer.RunMessage | src/orb/GIOP/giop-send-buffer.c:225-431 | For every run of appends, alignments, strings, reservations and fill-ins, the gathered vectors denote the flat byte string, don't-care padding apart, with a right size field |
| Values.LabelMatches | src/orb/orb-core/corba-any.c:291-337 | A label is found for its own discriminator value if and only if it is no `unsigned short` from 0x8000 on and no negative `char` |
| Values.TagOfLabel | src/orb/orb-core/corba-any.c:348-378 | A switch value selects the first member with that label that is not the default member |
| Values.TagOfNoLabel | src/orb/orb-core/corba-any.c:348-378 | A switch value without such a member selects the default member, or null if there is none |
| Values.UnionSent | src/orb/orb-core/corba-any.c:194-216 | A union value is one of the member its discriminator selects, by labels alone, and is sent as the discriminator and then as that member |
| Values.UnionReceived | src/orb/orb-core/corba-any.c:569-593 | The receiver reads the discriminator, and then the member it selects, by labels alone |
| Values.LabelReceived | src/orb/orb-core/corba-any.c:569-593 | The bits of a label that can be matched make the receiver read that label's member |
| Values.DemarshalEquiv | src/orb/orb-core/corba-any.c:400-732 | Demarshalling depends on the TypeCode only up to equivalence |
| Values.MarshalEquiv | src/orb/orb-core/corba-any.c:122-289 | Equivalent TypeCodes have the same values and marshal them to the same cells |
| ValueRoundTrip.DemarshalMarshal | src/orb/orb-core/corba-any.c:122-289 | For every TypeCode and value, at every position, in either byte order and whatever the padding is, demarshalling what was marshalled gives the value back and stops where the sender stopped, with 64-bit pointers if and only if the TypeCodes inside the value are `Local`; covers any, TypeCode values, unions with defaults, wide strings |
| ValueRoundTrip.DemarshalAsEquivalent | src/orb/orb-core/corba-any.c:400-732 | The same with any TypeCode at the receiver that is equivalent to the sender's |
| ValueRoundTrip.WideStringOf | src/orb/orb-core/corba-any.c:609-655 | The byte-order mark makes the receiver read a wide string in the sender's order whatever the message flags say |
| ValueRoundTrip.LongStringRejected | src/orb/orb-core/corba-any.c:594-622 | A string that announces 2^31 bytes or more is always an error |
| KnownValues.KnownNumber | src/orb/orb-core/corba-any.c:122-155 | For each basic kind, its size and its padding one place behind an eight-byte boundary |
| KnownValues.KnownStruct | src/orb/orb-core/corba-any.c:122-289 | The bytes of a structure with an octet, a long, a string, a sequence of octets, a union, an any and a wide string, in either byte order |
| ValueCodec.BlockCopy | src/orb/orb-core/corba-any.c:240-267 | Copying a block of octets is marshalling its elements one by one |
| ValueCodec.MarshalValue | src/orb/orb-core/corba-any.c:122-289 | The marshaller on a send buffer, with its block copies and loops, appends exactly the specified cells |
| ValueCodec.GiopByteSwap | src/orb/orb-core/corba-any.c:18-28 | The two-pointer swap reverses the bytes |
| ValueCodec.GetFloat | src/orb/orb-core/corba-any.c:455-498 | Floating-point values read with byte swap have the bits the sender stored |
| ValueCodec.WideFromBlock | src/orb/orb-core/corba-any.c:609-655 | Detecting the mark and swapping every character gives the specified wide string on either kind of machine |
| ValueCodec.BlockRead | src/orb/orb-core/corba-any.c:671-686 | Checking the end once and copying a block is demarshalling its one-byte elements one by one, errors included |
| ValueCodec.DemarshalSequence | src/orb/orb-core/corba-any.c:656-718 | The elements of a sequence, by block copy or one by one, are the specified ones |
| ValueCodec.DemarshalValue | src/orb/orb-core/corba-any.c:400-732 | The demarshaller on a receive buffer reports an error exactly when the specification fails, and otherwise gives its value and position |
| Layout.CopyWalk | src/orb/orb-core/corba-any.c:793-954 | For every type, copy advances its cursors by exactly the computed size and meets every part where the layout puts it |
| Layout.WalkIsSize | src/orb/orb-core/corba-any.c:180-274 | Marshal, and demarshal with the same steps, advances the memory cursor by the computed size if and only if the unions it passes are `Good` |
| Layout.UnionSizeof | src/orb/orb-core/corba-any.c:71-89 | The size computed for a union is the C compiler's if and only if it is `Good` |
| Layout.ShortUnion | src/orb/orb-core/corba-any.c:71-89 | A concrete union for which 16 bytes are computed and the C compiler needs 24 |
| Layout.StructLayout | include/matecorba/orb-core/corba-any-type.h:10-14 | The sizes used for anys and sequences are those of their C structures, computed from the fields |
| Layout.RisingIsGood | src/orb/orb-core/corba-any.c:76-85 | Unions whose member alignments never decrease are `Good` |
| Layout.SizeIsSizeof | src/orb/orb-core/corba-any.c:30-111 | For every type whose unions are all `Good`, the computed size is sizeof |
| Layout.VisitsExact | src/orb/orb-core/allocators.c:21-124 | For every type whose unions are all `Good`, freeing visits exactly the addresses where the value's parts are if and only if the type is `FreeOk` |
| Layout.FreeElements | src/orb/orb-core/allocators.c:196-206 | For every such type, freeing n elements visits exactly the parts of the n elements if and only if the type is `FreeOk` |
| Layout.GapExample | src/orb/orb-core/allocators.c:21-124 | A concrete structure whose string member is freed at a wrong address |
| Sequences.OrbSequence.Realloc | src/orb/orb-core/allocators.c:300-336 | Reallocation keeps the elements and zeroes the rest |
| Sequences.OrbSequence.Append | src/orb/orb-core/corba-any.c:1273-1306 | Append is append on the abstract list; the capacity doubles exactly when it is used up |
| Sequences.OrbSequence.Remove | src/orb/orb-core/corba-any.c:1308-1335 | Remove deletes one element, keeps the order, and clears the freed place |
| Sequences.OrbSequence.SetSize | src/orb/orb-core/corba-any.c:1223-1271 | Shrinking keeps a prefix; growing keeps the elements and says exactly what the new ones are |
| Sequences.OrbSequence.ConcatWith | src/orb/orb-core/corba-any.c:1337-1361 | Concatenation, with the other sequence unchanged |
| Sequences.ConcatSelf | src/orb/orb-core/corba-any.c:1337-1361 | Concatenating a sequence to itself: after any number of rounds the loop goes on if and only if the sequence was not empty |
| Sequences.AppendAll | src/orb/orb-core/corba-any.c:1273-1306 | n appends to an empty sequence give the list, move fewer than 2n elements, and leave a capacity of at most 2n |
| Sequences.FillGrowing | src/orb/orb-core/corba-any.c:687-711 | The doubling growth while a sequence arrives never writes beyond the capacity and ends with exactly the announced elements |
| LinkConnection.QueuedWrite.Advance | linc2/src/linc-connection.c:1090-1104 | Skipping n written bytes over the vectors leaves exactly the unsent suffix, with a nonempty first vector |
| LinkConnection.Connection.WriteData | linc2/src/linc-connection.c:1010-1107 | Bytes taken by the socket followed by bytes left are unchanged for every pattern of partial writes, EAGAIN and vector-count truncation; the socket is offered the first bytes and tried until all is taken, it would block on a non-blocking connection (queued), or it would block or fails (fatal), if and only if in each case |
| LinkConnection.Connection.QueueSignal | linc2/src/linc-connection.c:372-401 | Accounting keeps the byte count at least the bytes queued, and drops the queue when the maximum is reached |
| LinkConnection.Connection.QueueFlattened | linc2/src/linc-connection.c:416-461 | Queueing appends the whole vector list to the pending bytes |
| LinkConnection.Connection.Flush | linc2/src/linc-connection.c:1123-1168 | The oldest block is tried. If the socket takes all it is offered, its bytes are on the wire and it has left the queue; it stays only if the last reply was would-block on a non-blocking connection; any other failure disconnects |
| LinkConnection.Connection.Submit | linc2/src/linc-connection.c:1205-1274 | A write with nothing queued is tried at once and a later one queued; it keeps wire plus queue equal to all submitted bytes exactly when it is queued or done with a nonempty first vector |
| LinkConnection.LostByte | linc2/src/linc-connection.c:1010-1021 | A byte behind an empty vector is reported as written, and is neither sent nor queued |
| LinkConnection.Connection.HandleEvent | linc2/src/linc-connection.c:1452-1526 | A writable socket flushes a connected or newly connected connection; errors disconnect; otherwise nothing is lost, duplicated or reordered |
| LinkConnection.Drain | linc2/src/linc-connection.c:1123-1168 | While the socket takes all it is offered, n writable events take the n oldest blocks to the wire, and as many events as there are blocks empty the queue |
| LinkConnection.Connection.Run | linc2/src/linc-connection.c:1205-1274 | In every run of writes, events and timeouts, up to the first fatal write: wire plus queue is the concatenation of all writes in call order; and queued bytes stay below the maximum or the connection is dropped |
| CommandQueue.Loop.Exec | linc2/src/linc.c:121-162 | A command is queued last, and one wakeup byte is in the pipe whether or not it was there before |
| CommandQueue.Loop.TakeQueue | linc2/src/linc.c:81-119 | The I/O thread consumes the byte and takes the whole, nonempty queue |
| CommandQueue.Loop.DispatchNext | linc2/src/linc.c:97-118 | The oldest command not yet run is run, once; a synchronous one is not freed |
| CommandQueue.Loop.Complete | linc2/src/linc.c:105-116 | The completion flag is set on a command that its owner has not freed |
| CommandQueue.Loop.Wake | linc2/src/linc.c:147-161 | A synchronous caller returns only after its command ran |
| CommandQueue.Run | linc2/src/linc.c:74-162 | In every interleaving of callers and the I/O thread, the queued commands are the calls in order, those dispatched are a prefix that ran once each, and the pipe holds one byte exactly when the queue is nonempty |
| GiopReceive.SplitUnique | src/orb/GIOP/giop-recv-buffer.c:1145-1360 | A stream has only one reading as messages followed by an incomplete or bad rest |
| GiopReceive.FlagBits | include/matecorba/GIOP/giop-types.h:192-194 | The flags at offset 6 of the header: bit 0 is the byte order, bit 1 announces fragments |
| GiopReceive.PlainStep | src/orb/GIOP/giop-recv-buffer.c:1302-1330 | By the type byte, as a number, of a message without fragments: 0, 1, 3 and 4 with a good header are delivered with their own bytes, 2 and 6 are dropped and the connection stays open, 5 closes it, anything else is rejected |
| GiopReceive.HandedExactly | src/orb/GIOP/giop-recv-buffer.c:1302-1330 | In every run of such messages exactly those of type 0, 1, 3 or 4 with a good header that come before the close are delivered, once each, in order, as they were received |
| GiopReceive.ClosesAt | src/orb/GIOP/giop-recv-buffer.c:1302-1330 | The connection closes exactly at the first message of type 5 or from 7 on, with a bad header, or that is a refused reply |
| GiopReceive.StreamHanded | src/orb/GIOP/giop-recv-buffer.c:1208-1360 | The same for the bytes of a stream |
| GiopReceive.ConcatFrags | src/orb/GIOP/giop-recv-buffer.c:906-948 | The buffer allocated from the accumulated size holds exactly the head followed by the payloads, never overrun |
| GiopReceive.GetFrag | src/orb/GIOP/giop-recv-buffer.c:827-851 | The search finds the list of the request id, and the newest list for GIOP 1.1 |
| GiopReceive.Channel.CollectFragment | src/orb/GIOP/giop-recv-buffer.c:976-1053 | The fragment handler refuses, keeps or completes exactly as specified |
| GiopReceive.OwnListOnly | src/orb/GIOP/giop-recv-buffer.c:976-1053 | A GIOP 1.2 fragment changes only the list of its own request id; exactly when it is refused, kept or completes |
| GiopReceive.Interleaving | src/orb/GIOP/giop-recv-buffer.c:976-1053 | In any interleaving of fragments, the messages and the list of each request id are those of its own fragments alone |
| GiopReceive.Reassembled | src/orb/GIOP/giop-recv-buffer.c:906-1053 | After any earlier fragments, a head, middle fragments and a last fragment give the head followed by the payloads in arrival order |
| GiopReceive.FragmentsHanded | src/orb/GIOP/giop-recv-buffer.c:976-1053 | Received after any other messages, a GIOP 1.2 head, middle fragments and last fragment of one id, by their bytes, deliver one message: the head followed by what stands behind the ids, in arrival order |
| GiopReceive.Channel.ReadOnce | src/orb/GIOP/giop-recv-buffer.c:1208-1360 | Every read, of any length or none, keeps the channel's history equal to the messages its bytes split into |
| GiopReceive.Channel.ReceivedSoFar | src/orb/GIOP/giop-recv-buffer.c:1208-1360 | What was dispatched is a function of the bytes read alone, not of how they were cut |
| GiopReceive.Channel.Run | src/orb/GIOP/giop-recv-buffer.c:1208-1360 | However the stream is cut into reads, the messages delivered and the place where the connection closes are those of the stream split at its header sizes; a read that completes a message is followed by its handling |
| GiopReceive.ClosedForGood | src/orb/GIOP/giop-recv-buffer.c:1208-1360 | Bytes after a fatal message change nothing |
| EndToEnd.Transfer | src/orb/orb-core/corba-any.c:122-732 | A value marshalled into a fresh send buffer and demarshalled, as an equivalent type, from the bytes its vectors send: it fails if and only if the receiver has 64-bit pointers and a TypeCode in the value is not `Local`; otherwise it is the same value, on a receiver of either byte order, and the message is used up |
| EndToEnd.SentIsFrame | src/orb/GIOP/giop-recv-buffer.c:1145-1196 | Whatever was built in a send buffer, its bytes are one message to the receiver: the header check passes and the size field is right |
| EndToEnd.SplitPrefix | src/orb/GIOP/giop-recv-buffer.c:1208-1360 | However much of a stream of messages has arrived, it is split into the first ones of them and an incomplete rest |
| EndToEnd.Converse | linc2/src/linc-connection.c:1205-1274 | Messages written through an output queue in any run of its events, and read in any pieces at the other end: the receiver has handled exactly the first k in order, all of them when the queue is empty and everything is read; requests and locate requests without fragments have been delivered as they were written |
| PendingReplies.Table.Setup | src/orb/GIOP/giop-recv-buffer.c:553-574 | A new entry joins the list, without a callback, and keeps ids unique |
| PendingReplies.Table.SetupAsync | src/orb/GIOP/giop-recv-buffer.c:576-583 | The callback, set later, is missed if and only if the entry has left by then |
| PendingReplies.MissedCallback | src/orb/GIOP/giop-recv-buffer.c:576-634 | A connection lost between the two steps: the callback is set and nobody calls it |
| PendingReplies.Table.HandleReply | src/orb/GIOP/giop-recv-buffer.c:1055-1143 | The reply goes to the one entry with its id, type and connection, which leaves the list; all others keep waiting; exactly when it is an error |
| PendingReplies.Table.Zap | src/orb/GIOP/giop-recv-buffer.c:585-634 | A disconnect takes out exactly the connection's entries, and their callbacks are handed off once, with nothing |
| PendingReplies.Table.TakeOut | src/orb/GIOP/giop-recv-buffer.c:585-634 | The removal loop keeps the order of the other entries and collects the callbacks newest first |
| PendingReplies.Table.Destroy | src/orb/GIOP/giop-recv-buffer.c:530-551 | Withdrawing takes out exactly that entry; an answer already there stays |
| PendingReplies.Run | src/orb/GIOP/giop-recv-buffer.c:530-634 | In every run of registrations, callbacks set, replies, disconnects and withdrawals each entry waits or has left exactly once, with a buffer that answers it, and a callback set in time has been handed off exactly once |
| Dispatcher.Dispatcher.PushKey | src/orb/GIOP/giop.c:422-446 | A request goes to its key's thread, or to a new one that then owns the key, with all invariants kept while the hash lock is held |
| Dispatcher.Dispatcher.Append | src/orb/GIOP/giop.c:819-843 | The request joins the end of the chosen thread's queue |
| Dispatcher.Dispatcher.Pop | src/orb/GIOP/giop.c:760-803 | A thread delivers its newest answer when there is one and no policy is in force, or else starts the oldest request that its policy allows, or if there is none does nothing, stated on the queues before and after; requests pushed since the search do not disturb it |
| Dispatcher.Dispatcher.PushAsync | src/orb/GIOP/giop.c:617-646 | An answer joins the queue of its live thread, and is lost exactly if the thread has retired |
| Dispatcher.Dispatcher.TryRetire | src/orb/GIOP/giop.c:491-524 | A worker retires if and only if, without a policy, both its queues are empty, or, with one, no queued request is for a POA the policy allows; then exactly its keys are free, and with a policy exactly what is queued, requests and answers, is lost |
| Dispatcher.EmptyIsIdle | src/orb/GIOP/giop.c:730-744 | The emptiness test is that condition on the fields |
| Dispatcher.Round | src/orb/GIOP/giop.c:491-524 | A round of a thread that is left alone and starts and delivers nothing ends with its retirement |
| Dispatcher.Work | src/orb/GIOP/giop.c:491-524 | A thread without a policy that is left alone starts all its requests in order, delivers all its answers newest first, and retires |
| Dispatcher.PolicyLoses | src/orb/GIOP/giop.c:491-524 | A run in which a handler leaves a policy behind and the second request of its key is lost |
| Dispatcher.Dispatcher.KeyAdd | src/orb/GIOP/giop.c:394-404 | A new key belongs to one thread, in hash and key list alike |
| Dispatcher.Dispatcher.KeyRelease | src/orb/GIOP/giop.c:331-335 | A released key is in neither |
| Dispatcher.Dispatcher.Run | src/orb/GIOP/giop.c:319-446 | In every interleaving of pushes, worker steps, answers, releases and policies: hash and key lists agree, a retired worker has no key and no work, no request or answer is delivered twice or lost unaccounted, and requests of one key start in push order |
| Dispatcher.Dispatcher.SerialPerKey | src/orb/GIOP/giop.c:422-446 | Handlers of one key that was never released run on one thread |
| Dispatcher.Dispatcher.AllStarted | src/orb/GIOP/giop.c:491-524 | When all workers have retired, every pushed request was started exactly once, those of a key in push order, and every answer was delivered exactly once unless some were lost |
| Dispatcher.InOrderTake | src/orb/GIOP/giop.c:703-728 | Taking the first request of a POA out of the middle of a queue keeps push order per key and POA |
| IorCodec.MarshalObject | src/orb/orb-core/corba-object.c:543-590 | The marshaller on a send buffer appends exactly the specified type id, profiles and components, with lengths filled in |
| IorCodec.MarshalProfileData | src/orb/orb-core/iop-profiles.c:900-978 | Each profile's encapsulation is the specified one, for every profile tag and IIOP version |
| IorCodec.MarshalComponents | src/orb/orb-core/iop-profiles.c:844-898 | Components are written in order with their count, each in its own encapsulation |
| Ior.ReadComponent | src/orb/orb-core/iop-profiles.c:1265-1321 | Each kind of component comes back from what was written for it |
| Ior.ReadProfileData | src/orb/orb-core/iop-profiles.c:1353-1636 | Each kind of profile is read as the receiver sees it: with the object key where the profile carries it, and without the components of IIOP 1.0 |
| Ior.ReadObject | src/orb/orb-core/iop-profiles.c:1675-1732 | Demarshalling a marshalled reference gives its type id and its profiles and components in order, and stops where the sender stopped |
| Ior.SyncObjkey | src/orb/orb-core/iop-profiles.c:114-197 | The keys of all profiles are collected in order, compared, and cleared from the components |
| Ior.FirstKeyKept | src/orb/orb-core/iop-profiles.c:114-197 | The first key found is kept; a disagreement is reported if and only if the last key is another one |
| Ior.KeyComesBack | src/orb/orb-core/iop-profiles.c:114-197 | From a demarshalled reference exactly one key is collected, equal to the original, and all copies agree |
| Ior.ProfileComesBack | src/orb/orb-core/iop-profiles.c:114-197 | Once its key is collected, a received profile is the original one if and only if it is `Restorable`: no key of its own, and no components in IIOP 1.0 |
| KnownReferences.KnownIiop | src/orb/orb-core/iop-profiles.c:844-978 | The bytes of an IIOP profile with a security component |
| KnownReferences.KnownGeneric | src/orb/orb-core/iop-profiles.c:900-978 | The bytes of a generic profile |
| KnownReferences.KnownUnix | src/orb/orb-core/iop-profiles.c:900-978 | The bytes of a profile for a local socket |
| KnownReferences.KnownMultiple | src/orb/orb-core/iop-profiles.c:844-978 | The bytes of a multiple-component profile with code sets, a service and the object key |
| KnownReferences.KnownObject | src/orb/orb-core/corba-object.c:543-590 | The bytes of a whole reference with its type id and one profile |
| KnownReferences.KnownText | src/orb/orb-core/corba-orb.c:529-549 | The digits of three bytes: high digit first, lower case |
| IorText.ParseHexText | src/orb/orb-core/corba-orb.c:607-637 | Parsing the hex text of any bytes gives the bytes |
| IorText.WriteText | src/orb/orb-core/corba-orb.c:529-549 | The loop over the buffer's vectors writes the hex text of the flat message |
| IorText.ObjectToString | src/orb/orb-core/corba-orb.c:487-554 | The text is `IOR:` and the hex of the flag and the marshalled reference |
| IorText.StringToObject | src/orb/orb-core/corba-orb.c:607-637 | The parser's trimming and its digit loop are the specified ones; no `IOR:` prefix, no reference |
| IorText.TextComesBack | src/orb/orb-core/corba-orb.c:607-637 | Any reference comes back from its own text, whatever non-digits follow the text |
| IorText.ReferenceComesBack | src/orb/orb-core/corba-orb.c:515-553 | Through the text and key collection together: type id, as many profiles in order, one key equal to the original, and each profile as it was if and only if it is `Restorable` |

## Left out

- ValueCodec.DemarshalValue: rejects a wide string with an odd byte count, whose last character the code leaves half unset.
- GiopReceive.Channel.CollectFragment: refuses a first fragment without a head, where the code keeps it and aborts later.
- GiopReceive.Interleaving: GIOP 1.2 only; GIOP 1.1 has one set of fragments per connection by design.
- LinkConnection.Connection.Writev: the retry on EINTR is inside the one call.
- Dispatcher.Dispatcher.PushAsync: an answer for a retired thread counts as lost; that the code writes into freed memory then is not modelled.
- TypeCodeEquality.EncodeDecode: with 64-bit pointers for messages of up to 2^31 bytes, because larger offsets do not fit the field's signed type.
- GiopReceive.Channel.Run: header demarshalling and the refusal of replies are parameters; the refusal may depend on all that was received before, not on what is sent meanwhile.
- IorText.StringToObject: only the `IOR:` branch, from bytes on as a function; object table lookup, corbaloc and nil checks before it are not modelled.
- Sequences.OrbSequence.ConcatWith: growth is covered below 2^31 elements.
- Layout.VisitsExact: types whose computed size is not the compiler's are not covered, because their memory is too short anyway.
- Sequences.FillGrowing: the capacity policy on its own; the element decoding is in DemarshalValue.
- TypeCodes of kind fixed, Principal and object reference as the types of values, null and void as members, cyclic TypeCodes, and kinds 29 to 32, for which the decoder has no case.
- TypeCode errors inside an encapsulation that the C callers ignore: the model reports them.
- In `Layout`: arrays without elements, wide strings, and null or void members. Sizes are unbounded there and in the send buffer; messages are below 2^32 bytes where positions are compared.
- Appending nothing to a fresh send buffer, on which the code asserts; recycled buffers keep the message type byte of the previous message.
- A duplicate head whose header ends beyond its data, and the fragment size-limit policy.
- A command that the I/O thread issues itself, which is dispatched at once without the queue.
- Timeouts of pending entries and the threads that wait on them; only their entry's departure is modelled.
- Poll conditions other than output, SSL, Winsock, DNS, and reconnecting.
- The demarshaller of references is modelled on byte strings; the model of its receive buffer is the one the TypeCode decoder uses.
- Shutdown, threads bound to objects, the blocking write with its recursive main iteration, DynAny, policies' own storage, POA internals, type libraries, and the text format of the generated C.
