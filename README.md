# mynat STUN client: a Dafny model

This project models the core of a small STUN client (RFC 8489) that finds a
host's NAT mapping. It covers five parts:

- **StunMessage** (`message.dfy`) is the message codec of `pkg/stun/stun.go`.
  - The `Message` class holds the five fields of the Go struct.
  - `Encode` builds the header and every attribute with its padding, one write at a time.
  - `Decode` overwrites the receiver's fields, reading the header and then walking the attribute section with a cursor.
  - The walk keeps the first attribute of each type, after a zero-valued placeholder.
  - A slice out of range is a `Panic` outcome.
  - The functions `Wire` and `DecodeSpec` specify the two methods; the round trip and the lookup properties are lemmas about them.
- **StunUrl** (`url.dfy`) covers `ParseSTUNURL`, `validatePort` and `isSTUNScheme`, with `strconv.Atoi` modelled for a 64-bit `int`.
- **StunAttributes** (`attributes.go` → `attributes.dfy`) covers:
  - first-match lookup (`Extract`);
  - the value-receiver `Add`;
  - `xor128` as a loop, specified by `XorBytes`;
  - the `XORMappedAddress` class, whose `Parse` writes Family, Port and Address step by step;
  - `MappedAddress.Parse`, whose value receiver leaves the caller only its outcome.
- **Diagnosis** (`diagnosis.dfy`) covers `containIP`, `net.IP.Equal` and the procedure `DiagnoseWithPublicSTUN`.
  - The procedure runs over a `Network` object that plays the network as an oracle.
  - The oracle fixes in advance what dialling, exchanging and closing yield on each probe.
  - The oracle logs every call.
  - The decision ladder is the function `Classify`.
- **MyRoute** (`myroute.dfy`) is the older prototype codec of `cmd/myroute/main.go`.
  - Its `Encode` writes no padding.
  - Its `Decode` keeps duplicates, leaves the attributes alone when Length is zero, and slices two extra bytes for debug dumps.

`Binary` (`binary.dfy`) holds the parts of Go's `encoding/binary` that the codec uses:
- big-endian 16- and 32-bit values;
- the `^` operator on unsigned types, bit by bit;
- the padding arithmetic.

`StunErrors` (`errors.dfy`) names the error values and the `Ok`/`Err`/`Panic` outcome of a call.

Where the documentation and the code disagree, the model follows the code.
The doc comment of `ParseSTUNURL` says that a missing port defaults to 3478,
but the code adds it only to a bare host: a `scheme:host` string keeps no
port (`StunUrl.SchemeHostKeepsHost`).

## Model

| member | source | states |
|---|---|---|
| StunMessage.NewMessage | pkg/stun/stun.go:74-84 | a new message has the request type, Length 0, the magic cookie, the given transaction id and no attributes, and so is well formed (Length is the size of its empty attribute section) |
| StunMessage.Message.New | pkg/stun/stun.go:74-84 | the constructed object holds exactly the fields NewMessage gives |
| StunMessage.Message.Zero | pkg/stun/stun.go:53-72 | the zero value of the struct: every field zero, no attributes |
| StunMessage.HeaderWire | pkg/stun/stun.go:90-101 | the header is exactly 20 bytes |
| StunMessage.AttrWire | pkg/stun/stun.go:104-118 | one attribute takes 4 bytes, its stored value, then the padding that Length (not the value's real size) asks for |
| StunMessage.Wire | pkg/stun/stun.go:87-123 | the encoded message starts with the 20-byte header of type, copied Length, cookie and transaction id |
| StunMessage.AttrsWireSize | pkg/stun/stun.go:103-119 | when every Length is its value's size, the attribute section is AttrsSize bytes, a multiple of four |
| StunMessage.Message.Encode | pkg/stun/stun.go:87-123 | the bytes written are Wire of the receiver: header, then each attribute with its padding, in order |
| StunMessage.EncodeAttribute | pkg/stun/stun.go:103-119 | one turn of the attribute loop writes AttrWire of the attribute |
| StunMessage.Scan | pkg/stun/stun.go:162-189 | the walk from the cursor to Length: every attribute it meets, in order, duplicates included, each read at its cursor and the cursor moved 4 + Length + padding on; out of range as soon as a type, length or value leaves the buffer |
| StunMessage.FirstOccurrences | pkg/stun/stun.go:191-198 | the walked attributes with every later attribute of an already-seen type dropped, order kept |
| StunMessage.DecodeSpec | pkg/stun/stun.go:125-207 | fewer than 20 bytes: the short-header error; otherwise the header fields read big-endian, and for a non-zero Length the placeholder followed by the first occurrences of the walk, or a panic when the walk leaves the buffer; Length 0 gives no attributes |
| StunMessage.AttrAt | pkg/stun/stun.go:163-188 | the attribute read at the cursor has a value exactly Length bytes long |
| StunMessage.Message.Decode | pkg/stun/stun.go:125-207 | fewer than 20 bytes: an error and no field changed; otherwise Ok exactly when DecodeSpec decodes, the receiver then holding that message, and Panic exactly when DecodeSpec panics, the header fields then already assigned and the attributes untouched |
| StunMessage.DecodeAttributeSection | pkg/stun/stun.go:157-201 | the cursor loop yields the placeholder followed by the first attribute of each type of the walk, or a panic exactly when the walk leaves the buffer |
| StunMessage.ScanStep | pkg/stun/stun.go:162-189 | each turn reads the attribute at the cursor and moves it 4 + Length + padding on, which keeps the cursor a multiple of four |
| StunMessage.DupStep | pkg/stun/stun.go:161-196 | the `dup` map holds exactly the types seen so far, so an attribute is appended exactly when its type is new |
| StunMessage.KeepStep | pkg/stun/stun.go:191-198 | skipping a seen type or appending a new one keeps the list equal to the placeholder plus the first occurrences |
| StunMessage.ScanWire | pkg/stun/stun.go:162-189 | walking an encoded list up to its size finds exactly its attributes, duplicates included, each later duplicate moving the cursor by its full padded size |
| StunMessage.DecodeEncode | pkg/stun/stun.go:87-207 | round trip: if every Length is its value's size and the message Length is the padded section size, decoding Encode's bytes (whatever follows them) restores type, Length, cookie and transaction id, and gives the placeholder followed by the first attribute of each type, in order |
| StunMessage.DecodedPlaceholder | pkg/stun/stun.go:157-204 | a decoded Length of zero gives an empty list and nothing else does; otherwise element 0 is the zero attribute |
| StunMessage.PlaceholderFound | pkg/stun/stun.go:158-158 | after decoding a non-zero Length, a lookup of the reserved type 0x0000 finds the placeholder |
| StunMessage.TypesFirstOccurrences | pkg/stun/stun.go:191-198 | de-duplication keeps every type that occurs |
| StunMessage.FirstOccurrencesDistinct | pkg/stun/stun.go:191-198 | after de-duplication no two attributes share a type |
| StunMessage.ExtractFirstOccurrences | pkg/stun/stun.go:191-198 | dropping later duplicates changes no lookup by type |
| StunMessage.ExtractAppend | pkg/stun/attributes.go:96-105 | appending an attribute changes a lookup only when no earlier attribute has the type |
| StunMessage.DecodeEncodeLookup | pkg/stun/stun.go:155-204 | after a round trip every lookup of a type other than 0x0000 finds what it found in the encoded message |
| StunMessage.HeaderNotValidated | pkg/stun/stun.go:132-153 | other type and cookie bytes change only those two fields of the outcome: neither is checked |
| StunMessage.AttributeMayPassLength | pkg/stun/stun.go:162-189 | Length is compared only at the top of the loop, so an attribute starting below Length is read in full even when it runs past Length |
| StunUrl.Atoi | pkg/stun/stun.go:262-265 | an accepted integer lies in the 64-bit range and its string starts with a digit or a sign |
| StunUrl.ValidatePort | pkg/stun/stun.go:261-270 | not an integer, out of 1..65535, and accepted, each exactly when Atoi says so |
| StunUrl.ValidatePortDecimal | pkg/stun/stun.go:261-270 | every decimal port from 1 to 65535 is accepted; 0 and any larger int are out of range |
| StunUrl.Index | pkg/stun/stun.go:215-215 | the first position of the character, or -1 exactly when it does not occur |
| StunUrl.LastIndex | pkg/stun/stun.go:216-216 | the last position of the character, or -1 exactly when it does not occur |
| StunUrl.IsStunScheme | pkg/stun/stun.go:272-274 | true exactly for "stun" and "stuns" |
| StunUrl.ParsedSchemeIsStun | pkg/stun/stun.go:234-255 | every parsed URL has scheme stun or stuns; the scheme error comes exactly when the text before the first colon is read as a scheme (two colons, or a suffix that is not an integer) and is neither |
| StunUrl.ParseStunUrl | pkg/stun/stun.go:213-259 | no colon: scheme stun, host plus ":3478"; one colon: OneColon (host:port, port-range error or scheme:host); two or more: the scheme before the first colon must be stun or stuns, the host is everything after it |
| StunUrl.HostPortAccepted | pkg/stun/stun.go:225-245 | host:port with a port in 1..65535 keeps the whole string as host under scheme stun |
| StunUrl.HostPortOutOfRange | pkg/stun/stun.go:228-233 | host:port with an integer port above 65535 is the port-range error |
| StunUrl.SchemeHostKeepsHost | pkg/stun/stun.go:234-240 | stun:host gives scheme stun and the host with no default port |
| StunUrl.DefaultServerParses | diagnosis.go:65-75 | the built-in server string parses to itself as host under scheme stun |
| StunAttributes.Extract | pkg/stun/attributes.go:96-105 | found exactly when some attribute has the type, and then it is the first such; otherwise the zero attribute |
| StunAttributes.ExtractSkipsOtherTypes | pkg/stun/attributes.go:96-105 | attributes of other types placed in front change no lookup |
| StunAttributes.Add | pkg/stun/attributes.go:87-94 | the caller's list, and so every lookup in it, is unchanged |
| StunAttributes.XorBytes | pkg/stun/attributes.go:209-215 | byte-wise exclusive or keeps the length |
| StunAttributes.Xor128 | pkg/stun/attributes.go:209-215 | the loop's result is the byte-wise exclusive or of the two 16-byte inputs |
| StunAttributes.XorBytesSelfInverse | pkg/stun/attributes.go:209-215 | xor128(xor128(a, b), b) == a |
| StunAttributes.XorBytesCommutes | pkg/stun/attributes.go:209-215 | xor128(a, b) == xor128(b, a) |
| StunAttributes.UnxorPort | pkg/stun/attributes.go:180-182 | the port is the X-Port XOR 0x2112, the cookie's top 16 bits |
| StunAttributes.UnxorPortInvolution | pkg/stun/attributes.go:180-182 | XOR-ing the recovered port with 0x2112 again gives the X-Port back |
| StunAttributes.UnxorIpv4 | pkg/stun/attributes.go:187-191 | an IPv4 address is recovered as four bytes |
| StunAttributes.UnxorIpv4Involution | pkg/stun/attributes.go:187-191 | the IPv4 recovery (big-endian u32 XOR the cookie) undoes itself |
| StunAttributes.Ipv6Key | pkg/stun/attributes.go:195-197 | the IPv6 key is the cookie big-endian followed by the transaction id |
| StunAttributes.AddressEnd | pkg/stun/attributes.go:175-203 | Parse needs 8 value bytes for family 0x01 and 20 for any other |
| StunAttributes.XorDecode | pkg/stun/attributes.go:175-203 | family from byte 1, port that XORs back to bytes 2-3, address from bytes 4-7 (IPv4) or 4-19 XOR cookie and transaction id |
| StunAttributes.XorDecodeEncode | pkg/stun/attributes.go:171-206 | decoding what a server encodes per section 14.2 of RFC 8489 (port XOR 0x2112, IPv4 address XOR the cookie, IPv6 address XOR cookie and transaction id) gives back family, port and address |
| StunAttributes.XorParseStatus | pkg/stun/attributes.go:171-206 | an error exactly for a type other than 0x0020, success exactly when the value is long enough for its family, a panic otherwise |
| StunAttributes.XorMappedAddress.constructor | pkg/stun/attributes.go:166-169 | the zero value: family, port and address empty |
| StunAttributes.XorMappedAddress.Parse | pkg/stun/attributes.go:171-206 | on success the fields are XorDecode of the value; a wrong type changes nothing; a panic leaves exactly the fields assigned before it |
| StunAttributes.MappedAddressParse | pkg/stun/attributes.go:129-154 | an error exactly for a type other than 0x0001; success exactly when the value is long enough for its family |
| Binary.Uint16OfPut | pkg/stun/stun.go:132-138 | a 16-bit field written big-endian reads back as itself |
| Binary.Uint32OfPut | pkg/stun/stun.go:142-145 | a 32-bit field written big-endian reads back as itself |
| Binary.XorInvolution | pkg/stun/attributes.go:180-188 | Go's `^` applied twice with the same key gives the value back |
| Binary.Pad | pkg/stun/stun.go:110-113 | fewer than four padding bytes, bringing the value to a multiple of four |
| Diagnosis.IpEqual | diagnosis.go:127-127 | net.IP.Equal: equal bytes at equal lengths, or a 4-byte address and its IPv4-mapped 16-byte form; false for any other pair of lengths |
| Diagnosis.IpEqualIsSame16 | diagnosis.go:150-157 | for 4- and 16-byte addresses, Equal is equality of the 16-byte forms |
| Diagnosis.IpEqualSymmetric | diagnosis.go:127-127 | Equal does not depend on the order of the two addresses |
| Diagnosis.ContainIp | diagnosis.go:150-157 | true exactly when some address of the list is Equal to the target |
| Diagnosis.Network.NewClient | diagnosis.go:135-138 | dialling takes the next probe's outcome and logs the server and local address |
| Diagnosis.Network.Do | diagnosis.go:140-143 | the exchange returns the probe's response or error and logs the request |
| Diagnosis.Network.Close | diagnosis.go:144-146 | closing returns the probe's outcome and logs the call |
| Diagnosis.DoStunRequest | diagnosis.go:134-148 | the result is the first error of dial, Do and Close, or the response; the calls made are dial, then Do if dial worked, then Close if Do worked |
| Diagnosis.ProbeFirstError | diagnosis.go:134-148 | each error is returned unchanged, and the response only when all three calls succeed |
| Diagnosis.CloseOnlyAfterExchange | diagnosis.go:134-148 | a probe dials first, sends exactly when the dial worked, and closes exactly when Do succeeded |
| Diagnosis.ProbeDialsOnce | diagnosis.go:134-138 | a probe dials once, first, to the server and address it is given |
| Diagnosis.Probe | diagnosis.go:134-148 | what doSTUNRequest returns for a probe: the dial error, else the Do error, else the Close error, else the response |
| Diagnosis.AfterParse | diagnosis.go:101-103 | Parse's status decides the step: Ok gives the decoded address, an error ends the run with that error, a panic ends it panicking |
| Diagnosis.ReflexiveOf | diagnosis.go:96-103 | the probe's error, else the missing-attribute error when Extract finds no XOR-MAPPED-ADDRESS, else AfterParse of parsing the first one with the response's transaction id (the same steps repeat at diagnosis.go:116-123) |
| Diagnosis.Reflect | diagnosis.go:96-103 | Extract then Parse: the first XOR-MAPPED-ADDRESS's decoded address, or the probe's error, the missing-attribute error, Parse's error or its panic |
| Diagnosis.ReflexiveIsFirstXorAddress | diagnosis.go:96-103 | a reflexive address is the decoded address of the first XOR-MAPPED-ADDRESS; a failed probe or a missing attribute ends with that error |
| Diagnosis.Classify | diagnosis.go:72-131 | a URL error or an interface error is the outcome; no IPv4 address is the no-IPv4 error; otherwise Decide |
| Diagnosis.Decide | diagnosis.go:91-131 | the first probe's error is the outcome; a reflexive address Equal to some local address is no NAT; otherwise Compare |
| Diagnosis.Compare | diagnosis.go:113-131 | the second probe's error is the outcome; EIM exactly when the two reflexive addresses are Equal, and nothing reported otherwise |
| Diagnosis.DiagnoseWithPublicStun | diagnosis.go:71-132 | the outcome is Classify of the parsed default server, the local addresses and the two probes; probes issued and calls logged are those of the ladder |
| Diagnosis.DiagnoseWithServer | diagnosis.go:71-132 | the same, for any server string |
| Diagnosis.Probing | diagnosis.go:90-131 | the ladder after the local address is known, issuing one probe or two from ip4[0] |
| Diagnosis.AfterFirstProbe | diagnosis.go:105-131 | stop on the first probe's failure, report no NAT when its address is local, else probe again |
| Diagnosis.SecondProbe | diagnosis.go:112-131 | the second probe, then EIM exactly when the reflexive addresses are Equal |
| Diagnosis.DefaultServerIsHostPort | diagnosis.go:72-75 | parsing the default server never stops the diagnosis |
| Diagnosis.EmptyInterfaceNoProbe | diagnosis.go:85-87 | no local IPv4 address: the no-IPv4 error and no probe |
| Diagnosis.MissingAddressStops | diagnosis.go:97-100 | a response without XOR-MAPPED-ADDRESS ends the run with that error, and a first such response means no second probe |
| Diagnosis.ProbeErrorsPassThrough | diagnosis.go:91-116 | an error of the first probe, or of the second when it is reached, is the outcome |
| Diagnosis.LocalReflexiveMeansNoNat | diagnosis.go:105-110 | a reflexive address Equal to a local one reports no NAT after a single probe |
| Diagnosis.EndpointIndependentIff | diagnosis.go:112-131 | past the first probe there are two probes, EIM is reported exactly when the addresses are Equal (ports ignored), and nothing otherwise |
| Diagnosis.ProbesShareServerAndAddress | diagnosis.go:91-113 | every dial goes to the parsed server from the first local address |
| MyRoute.AttrWire | cmd/myroute/main.go:183-193 | one attribute takes 4 bytes plus its value, with no padding |
| MyRoute.Wire | cmd/myroute/main.go:167-197 | the 20-byte header of type, copied Length, cookie and transaction id, then each attribute unpadded, in order |
| MyRoute.AttrsWireSize | cmd/myroute/main.go:183-193 | the attribute section is the sum of 4 + value size over the attributes |
| MyRoute.EncodedSize | cmd/myroute/main.go:167-197 | the output is 20 + the sum of 4 + value size bytes |
| MyRoute.Message.Encode | cmd/myroute/main.go:167-197 | the bytes written are the header, then type, Length and raw value of each attribute, and their count is 20 + Size |
| MyRoute.Message.Decode | cmd/myroute/main.go:199-272 | fewer than 20 bytes: an error and nothing changed; otherwise Ok exactly when DecodeSpec decodes (Length 0 keeping the prior attributes), and Panic exactly when DecodeSpec panics, leaving the header fields assigned and the attributes untouched |
| MyRoute.DecodeAttributeSection | cmd/myroute/main.go:231-268 | the cursor loop yields the placeholder then every attribute of the walk, duplicates included, or a panic exactly when a read or a debug slice leaves the buffer |
| MyRoute.Scan | cmd/myroute/main.go:235-266 | the walk from the cursor to Length: every attribute it meets, in order, duplicates included, the cursor moved 4 + Length + padding on; out of range when a read or the two-byte debug slice after the length leaves the buffer |
| MyRoute.DecodeSpec | cmd/myroute/main.go:199-272 | fewer than 20 bytes: the short-header error; otherwise the header fields read big-endian, and for a non-zero Length the placeholder followed by every attribute of the walk, or a panic; Length 0 keeps the prior attributes |
| MyRoute.ScanStep | cmd/myroute/main.go:247-260 | each turn reads the attribute at the cursor and moves 4 + Length + padding on |
| MyRoute.ScanWire | cmd/myroute/main.go:235-266 | over an encoded list in which every value but the last is a multiple of four bytes, followed by at least two bytes (the 1500-byte receive buffer supplies them), the walk finds exactly its attributes |
| MyRoute.DecodeEncode | cmd/myroute/main.go:167-272 | round trip when every value but the last is a multiple of four bytes and at least two bytes follow the message (the 1500-byte receive buffer supplies them): header restored, the placeholder then every attribute in order; no attributes keeps the prior list |
| MyRoute.PaddedScanWire | cmd/myroute/main.go:235-266 | the prototype's walk over the package codec's padded encoding, followed by at least two bytes (the 1500-byte receive buffer supplies them), finds exactly its attributes |
| MyRoute.DecodePadded | cmd/myroute/main.go:199-272 | decoding the package Encode's bytes of a well-formed message, followed by at least two bytes (the 1500-byte receive buffer supplies them), restores the header and gives the placeholder then every attribute in order, duplicates included |
| MyRoute.LengthZeroKeepsAttributes | cmd/myroute/main.go:231-269 | Length zero leaves the receiver's attributes as they were |
| MyRoute.HeaderNotValidated | cmd/myroute/main.go:206-227 | type, Length, cookie and transaction id come big-endian from offsets 0, 2, 4 and 8-19, unchecked |
| MyRoute.DecodeHeader | cmd/myroute/main.go:199-235 | decoding any header followed by bytes restores its fields and walks the rest up to Length |
| MyRoute.ScanAt | cmd/myroute/main.go:238-265 | one step of the walk, stated on the bytes at the cursor |
| MyRoute.UnalignedSection | cmd/myroute/main.go:183-193 | the bytes Encode writes for a one-byte value followed by a four-byte XOR-MAPPED-ADDRESS |
| MyRoute.MisreadSection | cmd/myroute/main.go:235-266 | Decode reads that section as type 0x0001, then type 0x0400 of length 0, then a type-0 attribute |
| MyRoute.MisreadTail | cmd/myroute/main.go:235-266 | from byte 8 the walk reads the XOR-MAPPED-ADDRESS length bytes as type 0x0400 of length 0, then a type-0 attribute from the zeros, then stops at Length |
| MyRoute.UnalignedWalk | cmd/myroute/main.go:183-266 | the walk over Encode's bytes for that message reads type 0x0001 of length 1, then type 0x0400 of length 0, then a type-0 attribute |
| MyRoute.EncodeDecodeDisagree | cmd/myroute/main.go:183-266 | decoding Encode's bytes for that message does not give its attributes back |

## Left out

- `pkg/stun/client.go` is not part of this model. Dialling, deadlines, `time.Sleep` and the retry loops of `Client.Do` are network I/O. `Network` stands in for `NewClient`, `Do` and `Close`: each probe's outcomes are fixed in advance.
- The retry loops of `Client.Do` are not modelled. As written they return on the first write or read error whenever `maxRetry > 0`, and retry forever when it is 0. No bound on retries is claimed.
- `Client.Do` decodes a 1500-byte buffer; a failed decode there is an error inside the oracle. A panic in that decode is not modelled.
- The local IPv4 addresses (`GetIPFromIface`, `ip.go`) are an input to `DiagnoseWithPublicStun`, as a list or an error.
- `NewMessage` draws its transaction id from `crypto/rand`; here the id is a parameter.
- The two ids of the diagnosis's requests are parameters too.
- Logging (`pkg/logger`), `fmt` output and `hex.Dump` are left out: printing has no effect on the result. What the diagnosis prints is the `Verdict` it returns. The debug slices of the prototype Decode are kept, because they can panic.
- The `main` functions of `cmd/mynat` and `cmd/myroute` are left out.
- The stubs `getAttr` and `includeTypes` are empty and are not modelled.
- Go slices are modelled with capacity equal to length, so a slice past the length is always a panic. The receive buffer is such a slice. The value sub-slices that Decode stores keep the rest of the 1500-byte buffer as capacity in Go, and this model does not track that; the four lines below say what this changes.
- StunAttributes.XorParseStatus: reports Panic for every XOR-MAPPED-ADDRESS value shorter than its family needs (8 or 20 bytes). In Go only a value shorter than 2 bytes panics at `attr.Value[1]`: `Client.Do` decodes the whole 1500-byte buffer, so the sub-slices `[2:4]`, `[4:8]` and `[4:20]` of a shorter value reach into the packet bytes after it, and Parse succeeds with those bytes. Go panics there only when the value ends within 16 bytes of the buffer's end.
- StunAttributes.XorMappedAddress.Parse: same gap as `XorParseStatus`. Its Panic outcome covers values that Go reads past their end and parses.
- Diagnosis.Reflect: same gap. Its Panicking outcome for a short XOR-MAPPED-ADDRESS is, in Go, a reflexive address decoded partly from the bytes after the value.
- StunAttributes.MappedAddressParse: same gap. Its panic for a value shorter than its family needs is, in Go, a read of the bytes after the value by `attr.Value[2:4]`, `[4:8]` and `[4:20]`; `MappedAddress.Parse` has no caller in the diagnosis, so this does not reach it.
- The `error` results of `Encode` are not modelled: writes to a `bytes.Buffer` never fail, so both Encode methods return only the bytes.
- `netip.Addr` and `net.IP` are byte sequences. `net.IP.Equal` is modelled for all lengths. `String()` is left out.
- `MappedAddress.Parse` is modelled by its outcome only (`MappedAddressParse`). Its value receiver discards the decoded fields. Their decoding is the same as `XorDecode`'s port step, without the address XOR.
- `Add` builds the appended list and drops it, so the model returns the caller's list and does not build the appended one. The `uint16` Length it would compute is `|v| mod 65536`.
- `Diagnosis.DiagnoseWithServer` generalises the body to any server string so that proofs do not evaluate the literal. `DiagnoseWithPublicStun` calls it with the built-in server.
- MyRoute.ScanWire: stated only for lists in which every value but the last has a size that is a multiple of four, for the reason on the next line.
- MyRoute.DecodeEncode: stated only for lists in which every value but the last has a size that is a multiple of four. The prototype's round trip goes wrong when a value of another size is followed by another attribute: the walk skips padding that was never written and reads the next attribute from the wrong offset (see Findings). A last value of any size decodes correctly when at least two bytes follow the message. Go's debug slice of the two bytes after the last attribute's length needs at least two bytes after the message, which the 1500-byte receive buffer supplies; with nothing after the message, a last value of 0 or 1 bytes is a panic.

## Findings

| source | as written | input that shows it | evidently intended | confidence | as-written member | corrected member |
|---|---|---|---|---|---|---|
| cmd/myroute/main.go:183-266 | Encode writes each value with no padding, but Decode moves the cursor past `Length` plus padding to the next 4-byte boundary | a message with Length 13 holding MAPPED-ADDRESS of length 1 (value 0xAB) then XOR-MAPPED-ADDRESS of length 4, followed by zero bytes: Decode reads type 0x0001, then type 0x0400 of length 0, then type 0, and the XOR-MAPPED-ADDRESS is lost | Encode pads every value to a 4-byte boundary, as the package codec does, so that decoding restores the attributes | high (not executed) | MyRoute.EncodeDecodeDisagree | MyRoute.DecodePadded |
