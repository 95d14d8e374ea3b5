# LiDAR rover core in Dafny

This project models the logic inside the LiDAR rover software: the part that
does not touch a serial port. An SF45/B scanning LiDAR talks the LightWare
LWNX binary protocol to a Raspberry Pi. The Pi turns each distance/yaw
sample into a one-character command for an Arduino motor controller, and
exchanges tagged text lines with that controller and with a LoRa radio.

The model has one module per concern:

- **Common**: bytes, `Option`, `Result`, and the Python exceptions the code raises.
- **PyText**: the parts of Python text handling the program relies on: `str.strip`, `int(str)` and `str(int)`.
- **Bits**: `Convert_speed` and `High_bin_to_Dec`/`Low_bin_to_Dec`. These work over `format(n, '016b')` and `int(s, 2)`.
- **Crc**: `createCrc`, the CRC-16 of the LWNX protocol. It is proved equal to the bit-serial CRC with polynomial 0x1021, initial value 0, most significant bit first, no final XOR.
- **Packet**: `buildPacket`, and `parsePacket` as a step function over an explicit `ParserState` record that replaces the four module globals. Also covered: the `sf45_working` copy `parse_packet` (it returns `False` where the canonical copy returns `None`), soundness of the recogniser, and the build-then-parse round trip.
- **Transport**: `waitForPacket` over a finite byte stream, the four-attempt retry of `executeCommand`, the command sequence of `initLiDARSystem`, and the `sf45_working` helpers `set_update_rate` and `set_default_distance_output`.
- **Sensor**: `readSignalData`, `wait_for_reading` and `readStr16`/`get_str16_from_packet`.
- **Sweep**: `skip` and the sample-append rule of the V9 scan loop.
- **Segment**: `ObjectDetect`. It filters to a distance window, adds a sentinel, splits objects on a signed angle gap of at least 5 degrees, and computes the per-object statistics.
- **Algorithms**: the second-generation `isObstacleDetected`, `encodeObstacleAvoidance` and `encodeLandmarkHoning`.
- **DataEncoder** and **LandmarkHoningV1**: the first-generation encoders.
- **SerialComms**: `parseDataPacket`, the `tag + payload + tag` text framing.
- **Control**: the calibration wait and one iteration of `main()`'s loop as pure functions. Each takes the loop variables and the inputs read, and returns the new variables, the messages written and the exception raised, if any.

Serial reads become inputs: a byte sequence per attempt, the text line read,
and the sensor reply. Serial writes become outputs: the request frames and
the messages sent.

The codec exists three times in the repository. `createCrc`, `buildPacket` and
`parsePacket` in `LiDARCapabilityTests/SF45pythonV9.py` (lines 47-113) are the
same code as in `ObstacleAvoidance/QRAN_LiDARsetup.py` (lines 47-115), and so
are `create_crc` and `build_packet` in `LiDARCapabilityTests/sf45_working.py`
(lines 29-56). One definition serves all three. The one behavioural
difference, `parse_packet`'s `return False`, is modelled separately and
related by `Packet.Sf45Delta`.

## Model

| member | source | states |
|---|---|---|
| `Crc.CreateCrc` | ObstacleAvoidance/QRAN_LiDARsetup.py:47-62 | the CRC is always below 0x10000, and the CRC of no bytes is 0 |
| `Crc.CreateCrcIsBitSerial` | ObstacleAvoidance/QRAN_LiDARsetup.py:46-62 | for every byte sequence, `createCrc` equals the bit-serial CRC-16 with polynomial 0x1021, initial value 0, MSB first, no final XOR, which its comment names |
| `Crc.RegisterIsBitSerial` | ObstacleAvoidance/QRAN_LiDARsetup.py:50-60 | folding the byte-at-a-time step over the data gives the same register as shifting every bit through the reference register |
| `Crc.StepIsBitSerial` | ObstacleAvoidance/QRAN_LiDARsetup.py:51-60 | one iteration of the loop body, with its XORs and shifts, equals XORing the byte into the register's top and making eight conditional shifts with 0x1021 |
| `Crc.CreateCrcSnoc` | ObstacleAvoidance/QRAN_LiDARsetup.py:50-60 | appending one byte to the data advances the CRC by exactly one loop iteration |
| `Packet.WordBytes` | ObstacleAvoidance/QRAN_LiDARsetup.py:72-73 | a 16-bit value written as `x & 0xFF`, `(x >> 8) & 0xFF` is recovered as `lo + 256·hi` |
| `Packet.BuildPacket` | ObstacleAvoidance/QRAN_LiDARsetup.py:66-75 | the frame is `len(data) + 6` bytes: 0xAA, the flags word little-endian (`len(data)+1` shifted left by 6 with `write & 1` in bit 0, whenever `len(data)+1 < 1024`, otherwise its low 16 bits), the command, the data, then the little-endian CRC of everything before it |
| `Packet.AppendCrc` | ObstacleAvoidance/QRAN_LiDARsetup.py:71-73 | appending the CRC keeps the header and payload and adds two bytes that read back as their CRC |
| `Packet.ParsePacket` | ObstacleAvoidance/QRAN_LiDARsetup.py:79-115 | the parser state keeps its shape; it never returns `False`; it returns `True` exactly when the last expected byte arrives and the CRC matches; in stage 0 every byte but 0xAA is ignored, and 0xAA starts a new buffer `[0xAA]`; in stage 3 every byte is appended and the parser goes back to stage 0 exactly on the last expected byte, whether the CRC matches or not |
| `Packet.ParseFlagsHigh` | ObstacleAvoidance/QRAN_LiDARsetup.py:94-102 | after the second flags byte nothing is returned, and the parser falls back to stage 0 exactly when `(flags >> 6) + 2` exceeds 1019 |
| `Packet.ParseBody` | ObstacleAvoidance/QRAN_LiDARsetup.py:104-115 | a body byte is always appended to the buffer; on the last expected byte the parser goes back to stage 0 whatever the CRC, returning `True` exactly when it matches; before that it stays in stage 3 with one byte fewer to go and returns nothing |
| `Packet.HeaderRemaining` | ObstacleAvoidance/QRAN_LiDARsetup.py:94-102 | after the second flags byte the remaining count is `(flags >> 6) + 2`, the overflow check is `> 1019`, and the call returns `None` |
| `Packet.CompletionIsWellFramed` | ObstacleAvoidance/QRAN_LiDARsetup.py:104-115 | whenever the parser returns `True`, its buffer is a complete frame: start byte, flags whose length field matches, and a valid trailing CRC |
| `Packet.ParsePacketSf45` | LiDARCapabilityTests/sf45_working.py:59-97 | the snake_case copy returns `True` exactly on a CRC-valid completion, and `False` on every other byte |
| `Packet.Sf45Delta` | LiDARCapabilityTests/sf45_working.py:59-97 | the two copies leave identical globals; `parse_packet` returns `True` where `parsePacket` does, and `False` where it returns `None` |
| `Packet.Feed` | ObstacleAvoidance/QRAN_LiDARsetup.py:79-115 | feeding any byte sequence keeps the parser state well-formed |
| `Packet.FedPrefixStep` | ObstacleAvoidance/QRAN_LiDARsetup.py:85-115 | one more byte of a complete frame moves the parser to the state of the next-longer prefix, returning `True` only on the frame's last byte |
| `Packet.FeedFrame` | ObstacleAvoidance/QRAN_LiDARsetup.py:85-115 | after the first `k` bytes of a frame, fed from stage 0, the parser holds exactly those bytes in the stage their position calls for |
| `Packet.FrameParses` | ObstacleAvoidance/QRAN_LiDARsetup.py:85-115 | a complete frame fed from stage 0 makes the parser return `True` on its last byte and on no other, leaving the frame in the buffer and the parser in stage 0 |
| `Packet.BadFrameRejected` | ObstacleAvoidance/QRAN_LiDARsetup.py:104-115 | a well-sized frame whose CRC does not match is read to its end without any `True`, and leaves the parser in stage 0 holding that frame |
| `Packet.FeedAppend` | ObstacleAvoidance/QRAN_LiDARsetup.py:79-115 | feeding two byte runs one after the other is feeding their concatenation, since the parser's state lives between calls |
| `Packet.RecoversAfterBadFrame` | ObstacleAvoidance/QRAN_LiDARsetup.py:108-115 | after a frame that fails its CRC, the next valid frame is still recognised: `True` on its last byte and on no other, ending in stage 0 with only that frame in the buffer |
| `Packet.BuildIsWellFramed` | ObstacleAvoidance/QRAN_LiDARsetup.py:66-75 | every frame `buildPacket` makes with at most 1016 data bytes is one the recogniser accepts |
| `Packet.BuildThenParse` | ObstacleAvoidance/QRAN_LiDARsetup.py:66-115 | feeding `buildPacket(c, w, d)` byte by byte returns `True` only on the last byte, and the buffer is then the built frame with byte 3 equal to `c` |
| `Transport.WaitForPacket` | ObstacleAvoidance/QRAN_LiDARsetup.py:119-142 | after resetting the parser it returns the first CRC-valid frame whose command byte is the one requested, or `None` once the attempt's bytes are used up |
| `Transport.WaitFrame` | ObstacleAvoidance/QRAN_LiDARsetup.py:136-142 | a complete frame in the stream is returned if it answers the command and skipped otherwise, with the parser back in stage 0 |
| `Transport.ReplyToBuiltFrame` | ObstacleAvoidance/QRAN_LiDARsetup.py:119-142 | a stream starting with the frame `buildPacket` makes for the command yields exactly that frame |
| `Transport.ReplySkipsOtherCommand` | ObstacleAvoidance/QRAN_LiDARsetup.py:138-142 | a valid frame for another command is skipped, and the following frame for the requested command is returned |
| `Transport.Retry` | ObstacleAvoidance/QRAN_LiDARsetup.py:206-217 | the request is written 1 to 4 times; every attempt before the last written one timed out; the result is the first frame an attempt returns; after four silent attempts it raises and never returns `None` |
| `Transport.ExecuteCommand` | ObstacleAvoidance/QRAN_LiDARsetup.py:204-217 | the frame written is `buildPacket(command, write, data)`; the outcome is that of the retry loop |
| `Transport.Encode` | ObstacleAvoidance/QRAN_LiDARsetup.py:66-75 | a request becomes the built frame exactly when every payload value is a byte; otherwise `bytearray` raises |
| `Transport.Issue` | ObstacleAvoidance/QRAN_LiDARsetup.py:204-217 | one request raises `ValueError` for a non-byte payload, raises after four silent attempts, and otherwise returns a valid frame for its command |
| `Transport.RunRequests` | ObstacleAvoidance/QRAN_LiDARsetup.py:290-319 | a sequence of requests either returns one valid reply per request, with the matching command, or stops with the first `ValueError` or no-response error |
| `Transport.InitLiDARSystem` | ObstacleAvoidance/QRAN_LiDARsetup.py:271-319 | the requests are 0, 96 `[enable]`, 66 `[update]`, 27 `[8,1,0,0]` in that order; only when `enable == 1` come 85 `[speed % 256, speed / 256]`, then 99 and 98 with the angle words' bytes; a word too short to slice raises `ValueError` and stops the sequence |
| `Transport.AngleRequests` | ObstacleAvoidance/QRAN_LiDARsetup.py:309-319 | the two scan-angle requests are appended, high before low, exactly when both words split; the requests already sent stay unchanged |
| `Transport.AngleRequestValue` | ObstacleAvoidance/QRAN_LiDARsetup.py:224-233 | for 32 binary digits, the request payload `[dk1, dk2, lsb, msb]` is four bytes with `msb·2^24 + lsb·2^16 + dk1·2^8 + dk2` equal to the word's value |
| `Transport.InitAnglePayloads` | ObstacleAvoidance/QRAN_LiDARsetup.py:303-319 | with 32-digit angle words, set-up sends seven requests, and both angle payloads are byte lists that recombine to their word's value |
| `Transport.SetUpdateRate` | LiDARCapabilityTests/sf45_working.py:210-229 | values outside 1..12 raise; every accepted value sends command 66 with payload `[3]` |
| `Transport.UpdateRateIgnoresValue` | LiDARCapabilityTests/sf45_working.py:226-229 | any two accepted rates send the same request |
| `Transport.SetDefaultDistanceOutput` | LiDARCapabilityTests/sf45_working.py:232-239 | command 27 with `[1,1,0,0]` for the last return and `[8,1,0,0]` otherwise, the latter being the request `initLiDARSystem` sends |
| `Bits.ParseBin` | ObstacleAvoidance/QRAN_LiDARsetup.py:257-258 | `int(s, 2)` reads a non-empty digit string as its binary value and raises on the empty string |
| `Bits.Slice` | ObstacleAvoidance/QRAN_LiDARsetup.py:255-256 | the slice is as long as the range between its two bounds once both are clamped to the string's length |
| `Bits.BinaryValue` | ObstacleAvoidance/QRAN_LiDARsetup.py:254 | the digits `format` writes for `n` read back as `n` |
| `Bits.FormatUnsigned` | ObstacleAvoidance/QRAN_LiDARsetup.py:254 | for `0 <= n < 65536`, `"{0:016b}".format(n)` is sixteen binary digits worth `n` |
| `Bits.ConvertSpeed` | ObstacleAvoidance/QRAN_LiDARsetup.py:253-259 | `Convert_speed` never raises, for any integer, negative or wider than 16 bits |
| `Bits.FormatHasDigitSlices` | ObstacleAvoidance/QRAN_LiDARsetup.py:253-259 | both eight-character slices of the format parse, whatever the integer |
| `Bits.ConvertSpeedBytes` | ObstacleAvoidance/QRAN_LiDARsetup.py:253-259 | for a 16-bit speed the result is `(speed / 256, speed % 256)`, so `msbs·256 + lsbs == speed` |
| `Bits.SplitWord` | ObstacleAvoidance/QRAN_LiDARsetup.py:224-233 | a string of 24 characters or fewer leaves the last slice empty, and `int` raises `ValueError` |
| `Bits.SplitWordBytes` | ObstacleAvoidance/QRAN_LiDARsetup.py:224-233 | on 32 binary digits, the four results are the values of the four eight-digit quarters, most significant first, each below 256 |
| `Bits.SplitWordValue` | ObstacleAvoidance/QRAN_LiDARsetup.py:224-245 | on 32 binary digits the four bytes recombine, `msb·2^24 + lsb·2^16 + dk1·2^8 + dk2`, to the word's value |
| `Sensor.CentiYaw` | ObstacleAvoidance/QRAN_LiDARsetup.py:192-195 | the rebased yaw lies in [-33534, 32000] hundredths of a degree; words up to 32000 are kept; words above it (except 0xFFFF) become negative |
| `Sensor.YawRoundTrip` | ObstacleAvoidance/QRAN_LiDARsetup.py:192-196 | every yaw in that range is recovered from the word the sensor sends for it |
| `Sensor.YawWordOfDecoded` | ObstacleAvoidance/QRAN_LiDARsetup.py:192-195 | every word other than 0xFFFF is the word of the yaw it decodes to, so decoding is one-to-one there |
| `Sensor.YawAlias` | ObstacleAvoidance/QRAN_LiDARsetup.py:194-195 | subtracting 65535 makes the word 0xFFFF decode to 0, the same as word 0 |
| `Sensor.ReadSignalData` | ObstacleAvoidance/QRAN_LiDARsetup.py:161-200 | a reply shorter than 8 bytes raises `IndexError`; otherwise the distance is `b4 + 256·b5`, within [0, 65535], and the yaw is the rebased `b6 + 256·b7` over 100, within [-335.34, 320.00] degrees |
| `Sensor.SignalRoundTrip` | ObstacleAvoidance/QRAN_LiDARsetup.py:174-200 | bytes 4-7 carrying a distance and a yaw's word decode to that distance and that yaw |
| `Sensor.WaitForReading` | LiDARCapabilityTests/sf45_working.py:260-275 | no command-44 frame gives `(-1, 0)`; otherwise the distance is `(b4 + 256·b5) / 100` and the yaw is decoded as in `readSignalData` |
| `Sensor.ReadingFromFrame` | LiDARCapabilityTests/sf45_working.py:260-275 | a command-44 frame built from a distance and a yaw's word reads back as that distance in metres and that yaw |
| `Sensor.Str16FromSpec` | ObstacleAvoidance/QRAN_LiDARsetup.py:146-154 | from any offset, the string is at most 16 characters: the packet's bytes up to, not including, the first zero byte; an `IndexError` arises exactly when the packet ends before index 20 with no zero byte from the offset |
| `Sensor.ReadStr16` | ObstacleAvoidance/QRAN_LiDARsetup.py:146-154 | the loop returns at most 16 characters, spelling the bytes from index 4 up to the first zero; it raises `IndexError` exactly when a short packet has no zero byte from index 4 |
| `Sweep.Skip` | LiDARCapabilityTests/SF45pythonV9.py:253-259 | `skip` is `True` exactly when the angle differs from the last kept one; its assignment to `temp` changes nothing for the caller |
| `Sweep.Trunc` | LiDARCapabilityTests/SF45pythonV9.py:354 | `int()` of a float truncates toward zero |
| `Sweep.ChangesLast` | LiDARCapabilityTests/SF45pythonV9.py:358-364 | the last kept angle is always the angle of the last reading, or the trigger angle when nothing was kept |
| `Sweep.ChangesNoRepeats` | LiDARCapabilityTests/SF45pythonV9.py:358-364 | a sweep never keeps two equal angles in a row, nor the trigger angle first |
| `Sweep.ChangesFromReadings` | LiDARCapabilityTests/SF45pythonV9.py:358-364 | every kept sample is one of the readings |
| `Sweep.Scan` | LiDARCapabilityTests/SF45pythonV9.py:353-364 | `numPts == len(scanDist) == len(scanAngle)`; the kept samples are the readings whose angle changed, in order; the loop reads exactly while the previous angle truncates above `-Low0 + 1` |
| `Segment.Detect` | LiDARCapabilityTests/LidarObjectDetectionV5.py:21-25 | every detection is in the window, and there are none exactly when no sample is in the window |
| `Segment.DetectMembers` | LiDARCapabilityTests/LidarObjectDetectionV5.py:21-25 | a sample is detected exactly when it is in the sweep and in the window |
| `Segment.Breaks` | LiDARCapabilityTests/LidarObjectDetectionV5.py:77-91 | object ends are strictly increasing indices where the signed angle step is at least 5 |
| `Segment.BreaksComplete` | LiDARCapabilityTests/LidarObjectDetectionV5.py:77-91 | every such index is an object end |
| `Segment.SegmentsCount` | LiDARCapabilityTests/LidarObjectDetectionV5.py:77-91 | `j` is an object end exactly when `objAngle[j+1] - objAngle[j] >= 5`; descending steps never split |
| `Segment.Separate` | LiDARCapabilityTests/LidarObjectDetectionV5.py:77-91 | the separation loop, with its counter `k`, computes exactly the reference partition into objects |
| `Segment.ObjectAngles` | LiDARCapabilityTests/LidarObjectDetectionV5.py:86-90 | `maxObjAngle[i]` is the angle at `objEnd[i]`, and `minObjAngle[i+1]` is the angle just after it |
| `Segment.PointsTelescope` | LiDARCapabilityTests/LidarObjectDetectionV5.py:80-84 | the first `n` counts add up to one more than the `n`-th object's end |
| `Segment.SegmentsCover` | LiDARCapabilityTests/LidarObjectDetectionV5.py:77-91 | every object holds at least one detection; when the last detected angle is at most 265, the last object ends at `jPts - 1` and the counts sum to `jPts` |
| `Segment.RangeSumBounds` | LiDARCapabilityTests/LidarObjectDetectionV5.py:108-111 | a sum over a range of values all within `[lo, hi]` lies between `length·lo` and `length·hi` |
| `Segment.AveragingRange` | LiDARCapabilityTests/LidarObjectDetectionV5.py:80-110 | the range `range(objStart[i], objEnd[i]+1)` that object `i` is averaged over is empty although the object holds `objPts[i] >= 1` detections; starting one past the previous end instead, the range holds exactly `objPts[i]` detections |
| `Segment.CorrectedMeanOfOwnPoints` | LiDARCapabilityTests/LidarObjectDetectionV5.py:105-112 | with the corrected start, `obsDist[i]` is the mean of the `objPts[i]` distances that end at `objEnd[i]`, the object's own detections |
| `Segment.CentreAndWidth` | LiDARCapabilityTests/LidarObjectDetectionV5.py:116-117 | the direction is the midpoint of the object's angle span, and the width is zero exactly when the span or the mean distance is |
| `Segment.Prepare` | LiDARCapabilityTests/LidarObjectDetectionV5.py:21-74 | no result exactly when no sample is in range; otherwise the detections with the sentinel `(maxRange + 10, 270)` appended |
| `Segment.ObjectDetect` | LiDARCapabilityTests/LidarObjectDetectionV5.py:9-117 | the early return happens exactly when nothing is in range; otherwise the detections plus sentinel are split into objects, and the obstacles are averaged with `objStart` as the loop fills it |
| `Segment.FirstObjectMin` | LiDARCapabilityTests/LidarObjectDetectionV5.py:70-74 | the first object's minimum angle is the first sweep sample's when its distance is within 10..100, whatever the window, and the first detection's otherwise |
| `Segment.AsWrittenMeansAreZero` | LiDARCapabilityTests/LidarObjectDetectionV5.py:85-113 | `objStart[i] == objEnd[i] + 1` for every object, so every averaging range is empty and every mean distance and width is 0 |
| `Segment.OffByOneExample` | LiDARCapabilityTests/LidarObjectDetectionV5.py:107-113 | two detections at 50 cm one degree apart form one object of mean distance 0 as written, and 50 with the corrected start |
| `Segment.ObjectDetectCorrected` | LiDARCapabilityTests/LidarObjectDetectionV5.py:9-117 | the same function with each object averaged over its own detections |
| `Segment.CorrectedMeansInWindow` | LiDARCapabilityTests/LidarObjectDetectionV5.py:107-113 | with corrected starts, every object's mean distance lies within `[minRange, maxRange]` |
| `Algorithms.EncodeObstacleAvoidance` | main/QRAN_lidarDataAlgorithms.py:39-58 | `'L'` exactly for `400 < d < 550` and `0 < θ <= 17.458`; `'R'` exactly for `400 < d < 550` and `-17.458 <= θ <= 0`; `None` otherwise (no `'S'` branch) |
| `Algorithms.IsObstacleDetected` | main/QRAN_lidarDataAlgorithms.py:24-36 | a flag other than `'N'` never detects; with `'N'`, an obstacle is detected exactly when the avoidance encoder answers or `d` is in 550..600 with θ in the angle band |
| `Algorithms.EncodedIsDetected` | main/QRAN_lidarDataAlgorithms.py:24-58 | whatever the encoder turns away from, `isObstacleDetected` reports with the flag `'N'` |
| `Algorithms.DetectedButNotEncoded` | main/QRAN_lidarDataAlgorithms.py:31-53 | for `550 <= d <= 600` with θ in the band, an obstacle is detected yet encodes to `None` |
| `Algorithms.AgreesWithFirstGeneration` | main/QRAN_lidarDataAlgorithms.py:53-58 | where it answers, the second-generation encoder turns the way the first-generation `encodeObstacle` does |
| `Algorithms.MinusThreeAnd` | main/QRAN_lidarDataAlgorithms.py:86 | `-3 & t` is `t` or `t - 2`, and it is `t` exactly when bit 1 of `t` is clear |
| `Algorithms.AndMinusOne` | main/QRAN_lidarDataAlgorithms.py:86 | `-1 & b == b` for Python's infinite two's-complement `&` |
| `Algorithms.MinusThreeAndIsPyAnd` | main/QRAN_lidarDataAlgorithms.py:86 | the closed form equals Python's bitwise `-3 & t` for every integer |
| `Algorithms.MiddleTest` | main/QRAN_lidarDataAlgorithms.py:86 | the chained comparison `θ >= (-3 & θ) <= 3` raises `TypeError` exactly when θ is a float |
| `Algorithms.MiddleTestHolds` | main/QRAN_lidarDataAlgorithms.py:84-87 | for an integer θ in [-3, 3] the test is true |
| `Algorithms.EncodeLandmarkHoning` | main/QRAN_lidarDataAlgorithms.py:61-89 | `'A'` for `d <= 200`; `'O'` for `d > 600`; between them `'R'` above 3, `'L'` below -3, and inside [-3, 3] `'N'` for an integer θ or `TypeError` for a float |
| `Algorithms.ArrivalIgnoresAngle` | main/QRAN_lidarDataAlgorithms.py:77-78 | the arrival code does not depend on the angle or its type |
| `DataEncoder.EncodeObstacle` | LiDARDataEncoder.py:41-67 | total with range `{S, L, R, N}`: `'S'` exactly for `d <= 200` in the band, `'L'`/`'R'` exactly for `200 < d <= 600` in the band by sign, `'N'` exactly out of the band or beyond 600 |
| `DataEncoder.ObstacleDependsOnSignAndBand` | LiDARDataEncoder.py:41-67 | two angles with the same sign and band membership give the same code |
| `LandmarkHoningV1.EncodeLandmarkHoning` | LandmarkHoning/QRAN_main_LandmarkHoning.py:42-68 | total with range `{A, R, L, N}`: `'A'` exactly for `d <= 81.28`; `'R'`/`'L'` exactly for `81.28 < d <= 243.84` with θ in `(0, 17.458]` / `[-17.458, 0]`; `'N'` exactly otherwise |
| `LandmarkHoningV1.NeverNoChange` | LandmarkHoning/QRAN_main_LandmarkHoning.py:42-68 | the first landmark encoder never answers `'O'` |
| `PyText.Strip` | main/QRAN_serialComms.py:58 | the stripped text has no whitespace at either end |
| `PyText.TrimRemovesBlanks` | main/QRAN_serialComms.py:58 | the input is the trimmed text with only blanks around it, for `strip()`'s whitespace and for the narrower set `int()` skips |
| `PyText.TrimPadded` | main/QRAN_serialComms.py:58 | any blanks around a trimmed text are removed, and nothing else |
| `PyText.StripIdempotent` | main/QRAN_main.py:152-154 | stripping twice is stripping once |
| `PyText.ParseInt` | main/QRAN_main.py:157 | `int()` raises only `ValueError`, and always does for text that is all whitespace |
| `PyText.DigitLimit` | main/QRAN_main.py:157 | whatever `int()` accepts holds at most 4300 digits, not counting sign and underscores |
| `PyText.OverlongOneRaises` | main/QRAN_main.py:125 | 4300 zeros followed by `1` are well-formed digit groups worth 1, yet `int()` raises `ValueError` on them |
| `PyText.IntToString` | main/QRAN_main.py:180 | `str(d)` is non-empty with no surrounding whitespace |
| `PyText.ParseIntString` | main/QRAN_main.py:180 | `int(str(n)) == n` for every integer whose `str` takes at most 4300 digits |
| `PyText.BelowPow10Fits` | main/QRAN_main.py:180 | every integer of magnitude below 10^4300 takes at most 4300 digits, so the round trip covers it |
| `PyText.ParseIntSeesStrip` | main/QRAN_main.py:157 | `int()` reads the stripped text when the whitespace it skips is all the whitespace `strip()` removes; when a separator character U+001C..U+001F is left at an end, it raises `ValueError` |
| `PyText.SeparatorRaises` | main/QRAN_main.py:152-157 | a separator U+001C in front of the digits of `n` is removed by `strip()` but makes `int()` raise `ValueError` |
| `PyText.ParseIntToString` | main/QRAN_main.py:180 | `int(str(n)) == n` within the 4300-digit limit, also with whitespace other than U+001C..U+001F around the digits |
| `SerialComms.Frame` | main/QRAN_main.py:179-181 | `tag + payload + tag` is two longer than the payload, starts and ends with the tag, and holds the payload in between |
| `SerialComms.ParseDataPacket` | main/QRAN_serialComms.py:46-64 | accepted exactly when the stripped text has at least 3 characters and equal ends; the result is the tag and the text strictly between; everything else raises `ValueError` |
| `SerialComms.ParseStrippedPacket` | main/QRAN_serialComms.py:59-64 | on stripped text: accepted exactly for 3 or more characters with equal ends, and the text is then the frame of the result |
| `SerialComms.ParseFrame` | main/QRAN_serialComms.py:58-62 | `tag + p + tag` with a non-space tag and non-empty `p`, in any surrounding whitespace, parses to `(tag, p)`, even when `p` contains the tag |
| `SerialComms.FrameOfParse` | main/QRAN_serialComms.py:58-62 | every accepted text is such a frame of a non-space tag and a non-empty payload |
| `SerialComms.EmptyPayloadRejected` | main/QRAN_serialComms.py:59-64 | a frame with an empty payload (`"GG"`) is rejected |
| `SerialComms.MismatchedTagRejected` | main/QRAN_serialComms.py:59-64 | text with different non-space ends (`"GX"`) is rejected |
| `SerialComms.ShortestPacket` | main/QRAN_serialComms.py:59-62 | three copies of a non-space tag (`"GGG"`) parse to the tag and a one-character payload |
| `Control.StripBeforeParse` | main/QRAN_main.py:152-154 | stripping the line before `parseDataPacket` changes nothing |
| `Control.CalibrationStep` | main/QRAN_main.py:120-132 | a line raises only `ValueError`, relays at most one message, and relays nothing when it ends the wait |
| `Control.CalibrationStepReads` | main/QRAN_main.py:120-132 | a blank line does nothing; the wait ends exactly on a `C` packet whose payload reads as integer 1; a message goes out exactly for a `G` packet and is `'G' + payload` to the radio |
| `Control.Wait` | main/QRAN_main.py:118-132 | the wait consumes lines up to the one ending it, or all lines; an exception is that of a line read |
| `Control.WaitRelays` | main/QRAN_main.py:118-132 | the wait relays exactly what the lines it read relay, in order |
| `Control.WaitEndsAtFirstDone` | main/QRAN_main.py:118-132 | the wait ends on the first line that ends it, and every line before it was read without ending it |
| `Control.OutcomeOfLine` | main/QRAN_main.py:120-132 | a line that decodes has the outcome of the calibration step on its text; one that is not UTF-8 raises `ValueError` |
| `Control.CalibrationWait` | main/QRAN_main.py:118-132 | the wait on the controller's lines reads at most all of them and raises only `ValueError` |
| `Control.CalibrationEndsAtFirstReady` | main/QRAN_main.py:118-132 | the wait ends on the first ready line, and on nothing before it |
| `Control.CalibrationLine` | main/QRAN_main.py:120 | a line that is not UTF-8 raises `ValueError` in `decode`; a line raises nothing but `ValueError` |
| `Control.WaitStopsAtError` | main/QRAN_main.py:118-132 | a line that raises, read while the wait is still going, ends the wait with that exception |
| `Control.UndecodableLineStopsWait` | main/QRAN_main.py:118-120 | a line that is not UTF-8, read before the ready packet, ends the wait with `ValueError`, which no handler catches |
| `Control.ReadyPacket` | main/QRAN_main.py:120-127 | a `C` packet whose payload `int()` reads as 1, even with surrounding whitespace, ends the wait without relaying |
| `Control.BadReadyPayloadRaises` | main/QRAN_main.py:122-125 | a `C` packet whose payload `int()` rejects stops the wait with `ValueError` |
| `Control.OverlongReadyRaises` | main/QRAN_main.py:122-125 | a `C` packet carrying 4300 zeros and a `1` does not end the wait but raises `ValueError` |
| `Control.ReadCommand` | main/QRAN_main.py:150-165 | an inbound line raises only `ValueError`, and a relay is `'G'` followed by the payload |
| `Control.ReadCommandReads` | main/QRAN_main.py:150-165 | `M` sets the mode to `int(payload)`; `O` clears the flag; `G` relays `'G' + payload`; a blank line or another tag asks nothing; a malformed packet or a non-integer mode raises `ValueError` |
| `Control.Obey` | main/QRAN_main.py:156-165 | no command changes nothing; `M` sets the mode to its value and keeps the flag; `O` sets the flag to `'N'` and keeps the mode; `G` leaves the loop variables alone and sends one radio message; only `G` sends anything |
| `Control.Decide` | main/QRAN_main.py:167-207 | a detection sets the flag to `'D'` even in mode 1; without one the loop variables are unchanged, and outside mode 1 nothing is sent |
| `Control.LoopStep` | main/QRAN_main.py:143-207 | an `executeCommand` failure or a bad inbound line ends the iteration with that exception and nothing sent; a reply shorter than 8 bytes raises `IndexError`; otherwise the inbound command is obeyed first, and the decision is taken on the decoded sample with the updated mode and flag, after any relayed message |
| `Control.CommandActsBeforeDecision` | main/QRAN_main.py:150-171 | with a full reply, `M` changes the mode and `O` clears the flag before the obstacle test runs, and a `G` relay is sent before anything the decision sends |
| `Control.ClearRearmsDetection` | main/QRAN_main.py:159-173 | an `O` packet arriving with an obstacle in view clears the flag, and the same iteration detects again and sets it back to `'D'` |
| `Control.ObstaclePreempts` | main/QRAN_main.py:171-191 | on a detection the flag becomes `'D'`; with no turn code nothing is sent and the mode stays; otherwise `CDC`, `C<d>C` and `C<code>C` go to the controller, `O<d> ` to the radio, and the mode becomes 0 |
| `Control.OnlyOClearsFlag` | main/QRAN_main.py:159-160 | a set flag is cleared only by an `O` packet |
| `Control.LandmarkConeRaises` | main/QRAN_main.py:195-197 | in mode 1 with no detection, a landmark at `200 < d <= 600` within 3 degrees raises `TypeError`, which the loop does not catch |
| `Control.LandmarkSendsOneCommand` | main/QRAN_main.py:195-203 | in mode 1 outside that cone exactly one `C<code>C` is sent, with the landmark encoder's code |
| `Control.BadModeEndsLoop` | main/QRAN_main.py:156-157 | an `M` packet whose payload is not an integer ends the loop through the `ValueError` handler |
| `Control.Incoming` | main/QRAN_main.py:150-153 | no waiting line asks nothing; a waiting line that is not UTF-8 raises `ValueError` before it is parsed; every inbound failure is a `ValueError` |
| `Control.InboundErrorsEndQuietly` | main/QRAN_main.py:150-214 | any inbound failure ends the iteration with `ValueError`, nothing sent and the loop variables unchanged, and the `ValueError` handler of `main()` catches it |
| `Control.UndecodableLineEndsLoop` | main/QRAN_main.py:152 | a waiting line that is not UTF-8 ends the loop through the `ValueError` handler |
| `Control.ExecuteFailureEndsLoudly` | main/QRAN_main.py:143-218 | when `executeCommand` gives up, the iteration ends with its exception and nothing sent, and no handler of `main()` catches it |
| `Control.StandByAtStart` | main/QRAN_main.py:138-140 | the loop starts in mode 0 with the flag `'N'`: with no inbound line and no obstacle in view, an iteration sends nothing and changes nothing |
| `Control.DistanceMessageReadsBack` | main/QRAN_main.py:180-183 | the distance message parses back to `('C', str(d))`, and its payload to `d`, for every distance `str` can write |
| `Control.TurnDistanceFits` | main/QRAN_main.py:174-180 | every distance an obstacle turn sends is within `str`'s digit limit |
| `Control.FramedDistanceParses` | main/QRAN_main.py:180 | `'C' + str(d) + 'C'` parses to `('C', str(d))` |
| `Control.BareFrameParses` | main/QRAN_serialComms.py:58-62 | a frame with a non-space tag and non-empty payload parses back without surrounding whitespace |
| `Control.Run` | main/QRAN_main.py:143-218 | a run with no exception read every reply and line successfully; an exception other than `IndexError` or `TypeError` is one some iteration read |
| `Control.DetectionsAppend` | main/QRAN_main.py:179-184 | detection messages in a concatenation add up |
| `Control.CodeMessage` | main/QRAN_main.py:179-181 | a one-character `C` packet counts as a detection message only when the character is `D` |
| `Control.TurnHasOneDetection` | main/QRAN_main.py:179-188 | an obstacle turn sends exactly one `CDC` |
| `Control.ObstacleMessagesReadBack` | main/QRAN_main.py:179-188 | an obstacle turn is four messages: `CDC` first, the code packet third, and `O<d> ` to the radio last |
| `Control.DecideDetections` | main/QRAN_main.py:171-207 | a decision sends at most one `CDC`, only while the flag is `'N'`, and the flag then becomes `'D'`; the flag otherwise keeps its value or becomes `'D'` |
| `Control.FlagIsSticky` | main/QRAN_main.py:150-207 | without an `O` packet, an iteration sends at most one `CDC`, only when the flag was `'N'`, and never clears the flag |
| `Control.AtMostOneTurnWithoutClear` | main/QRAN_main.py:143-207 | over any number of iterations without an `O` packet, the loop sends at most one `CDC`, and none if the flag was already `'D'` |
| `Control.OneTurnFromStart` | main/QRAN_main.py:138-207 | from the loop's initial mode 0 and flag `'N'`, a run without an `O` packet turns away from at most one obstacle |

## Behaviour taken from the code

At these points the code does something other than a reader of its comments and names would expect. The model follows the code:

- `encodeObstacleAvoidance` in `main/QRAN_lidarDataAlgorithms.py` has no stop (`'S'`) branch. It answers only for `400 < d < 550` and returns `None` elsewhere. The stop branch exists only in the first-generation `encodeObstacle`.
- When `executeCommand` runs out of retries it raises a plain `Exception`. None of `main()`'s handlers catches it, so it ends the program, not just the current iteration.
- A line from the motor controller that is not UTF-8 raises `UnicodeDecodeError`, a kind of `ValueError`, in `decode`. A malformed line raises `ValueError` in `parseDataPacket`. The handler sits outside the `while True`, so either one ends the loop; the line is not dropped and the loop does not go on. During the calibration wait no handler catches either.
- `parsePacket` reports an overflowing or CRC-failing frame by returning `None`, the same as an incomplete one. It has no separate invalid result.
- The yaw rebasing subtracts 65535, so the word 0xFFFF reads as 0 degrees.
- `str.strip()` removes the separator characters U+001C..U+001F, but `int()` does not skip them. An `M` line whose payload starts or ends with one therefore raises `ValueError` and ends the loop (`PyText.SeparatorRaises`, `Control.BadModeEndsLoop`).
- `int()` and `str()` follow CPython 3.11 and later: with the default `sys.get_int_max_str_digits()` of 4300, `int()` raises `ValueError` on a text with more than 4300 digits, even when its value is small (`PyText.OverlongOneRaises`). A ready packet `C000…0001C` with 4301 digits therefore ends the calibration wait with an uncaught `ValueError` (`Control.OverlongReadyRaises`).
- The landmark hand-over (main/QRAN_main.py:101-114) reads from the radio and forwards to the motor controller. `recieveFromLoRa` (main/QRAN_loraRadioModule.py:23-29) has no `return`, so it gives `None`, and `'N' + numPoints + 'N'` at line 109 raises `TypeError`. Only `serial.SerialException` is caught there (line 113), so as written `main()` ends as soon as the radio sends a line, before the calibration wait. `Control` models lines 117-218 as if the hand-over had succeeded.
- When a frame's CRC does not match, `parsePacket` still goes back to stage 0 and keeps the bad frame in its buffer until the next 0xAA. The next valid frame is still recognised (`Packet.RecoversAfterBadFrame`).

## Left out

- The UTF-8 decoder itself. Each line read arrives either as its decoded text or as bytes that do not decode (`Control.Line`), and only the second case's `ValueError` is modelled.
- Serial ports, timing and logging: `serial.Serial`, `initSerialComms`, `sendToArduino`, `recieveFromArduino`, `readline`/`in_waiting`, `time.sleep`, `print` and the logger. Each read is an input, and each write is a message in the output.
- Wall-clock timeouts of `waitForPacket`. Each attempt is the finite byte sequence that arrives before its timeout; the four-attempt bound is kept.
- `float_to_bin`, which packs an IEEE-754 float with `struct`. Its 32-character bit string is an input to `initLiDARSystem`, and only the byte split of that string is modelled.
- Floating-point rounding. Angles, thresholds and `DegToRad` are exact `real`s. Raw byte fields and centimetre distances are `int`s.
- `main/QRAN_loraRadioModule.py` and the landmark hand-over from the radio to the motor controller (main/QRAN_main.py:101-114). It is serial I/O on both sides, and as written it ends `main()` with a `TypeError` (see above); the model starts at the calibration wait.
- The `None` guard at main/QRAN_main.py:145-147. It is dead code, because `executeCommand` raises instead of returning `None`; the raise is an error result that ends the loop.
- The `KeyboardInterrupt`, `queue.Empty` and `OSError` handlers and the `finally` block of `main()`. The model records which exception ends the loop; `Control.EndsQuietly` tells `ValueError` (caught) from the rest.
- The `ValueError` raised during the calibration wait is not caught by any handler. The model returns it as the wait's error and goes no further.
- `encodedData`, which the loop writes but never reads after the messages are built.
- `int()` on non-ASCII digits. The model accepts up to 4300 ASCII digits with optional sign, underscores between digits, and surrounding whitespace other than the separators U+001C..U+001F, which `int()` does not skip.
- PyText.IntToString: `str(n)` raises `ValueError` when `n` needs more than 4300 digits; the model's `str` has no error path. The loop formats only distances between 400 and 550 cm (`Control.TurnDistanceFits`), and the round trips are stated only within the limit.
- File writes, `input()` prompts and the top-level scripts of `SF45pythonV9.py`, `sf45_working.py` and `LiDARDataEncoder.py`, apart from the sample-append rule of the V9 scan loop.
- `sf45_working.py`'s `executeCommand` (lines 181-194). It calls `buildPacket`/`waitForPacket`, which that file does not define; the canonical `executeCommand` is modelled instead.
- The sweep's reading errors. `Sweep.Scan` takes already-decoded `(lastRaw, yawAngle)` pairs.
- The file handle and the print-outs of `ObjectDetect`. It takes the first `NSize` samples as one sequence of `(distance, angle)` pairs, so the two lists always have the same length.
- Crc.CreateCrc: Python works on unbounded integers and masks with 0xFFFF at the end of each iteration. The model works in a 16-bit register, because XOR and left shift commute with that mask.
- SerialComms.ParseFrame: the round trip needs a non-empty payload. With an empty one the frame is two characters, which `parseDataPacket` rejects (`SerialComms.EmptyPayloadRejected`).
- Transport.InitLiDARSystem: the speed payload is stated only for speeds in `0..65535`. Outside that range `Convert_speed` still returns (`Bits.ConvertSpeed`), but its two slices are not characterised.
- Sensor.CentiYaw: the word 0xFFFF decodes to 0, not -0.01, because the code subtracts 65535 rather than 65536. The model keeps this (`Sensor.YawAlias`), and the round trips exclude that one word.

## Findings

| source | as written | input that shows it | evidently intended | confidence | as-written member | corrected member |
|---|---|---|---|---|---|---|
| LiDARCapabilityTests/LidarObjectDetectionV5.py:89-113 | `objStart.append(j+1)` records the index after each object's end, and the mean sums over `range(objStart[i], objEnd[i]+1)`, which is empty | two samples `(50 cm, 0°)`, `(50 cm, 1°)` with window 10..3100: one object, `obsDist == [0]` | average each object over its own detections, from one past the previous end (0 for the first) through its end, giving `obsDist == [50]` | not executed | `Segment.AsWrittenMeansAreZero` | `Segment.CorrectedMeansInWindow` |
