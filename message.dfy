// The message exchanged between the drone's processes: an image, a command
// with its index, a lap number and a time stamp, serialized field by field
// into a boost archive.

module Messages {
  import opened Wrappers
  import opened Images
  import opened Serialization

  /** `enum Command`, in declaration order. */
  datatype Command =
    | NoCommand | ClientSendInfoToServer | CloseConnection | Escape | TakeOff | Landing
    | Engage | DisEngage | MoveForward | MoveBackward | MoveUp | MoveDown | MoveLeft | MoveRight
    | RotateLeft | RotateRight | AutoMoveForward | AutoMoveBackward | AutoMoveUp | AutoMoveDown
    | AutoMoveLeft | AutoMoveRight | AutoRotate

  /** The value of each enumerator: its position in the declaration. */
  function Ordinal(c: Command): (n: int)
    ensures 0 <= n < 23
  {
    match c
    case NoCommand => 0 case ClientSendInfoToServer => 1 case CloseConnection => 2 case Escape => 3
    case TakeOff => 4 case Landing => 5 case Engage => 6 case DisEngage => 7
    case MoveForward => 8 case MoveBackward => 9 case MoveUp => 10 case MoveDown => 11
    case MoveLeft => 12 case MoveRight => 13 case RotateLeft => 14 case RotateRight => 15
    case AutoMoveForward => 16 case AutoMoveBackward => 17 case AutoMoveUp => 18 case AutoMoveDown => 19
    case AutoMoveLeft => 20 case AutoMoveRight => 21 case AutoRotate => 22
  }

  /** The enumerator with value `n`, if there is one. */
  function FromOrdinal(n: int): (r: Option<Command>)
    ensures r.Some? <==> 0 <= n < 23
    ensures r.Some? ==> Ordinal(r.value) == n
  {
    if n == 0 then Some(NoCommand) else if n == 1 then Some(ClientSendInfoToServer)
    else if n == 2 then Some(CloseConnection) else if n == 3 then Some(Escape)
    else if n == 4 then Some(TakeOff) else if n == 5 then Some(Landing)
    else if n == 6 then Some(Engage) else if n == 7 then Some(DisEngage)
    else if n == 8 then Some(MoveForward) else if n == 9 then Some(MoveBackward)
    else if n == 10 then Some(MoveUp) else if n == 11 then Some(MoveDown)
    else if n == 12 then Some(MoveLeft) else if n == 13 then Some(MoveRight)
    else if n == 14 then Some(RotateLeft) else if n == 15 then Some(RotateRight)
    else if n == 16 then Some(AutoMoveForward) else if n == 17 then Some(AutoMoveBackward)
    else if n == 18 then Some(AutoMoveUp) else if n == 19 then Some(AutoMoveDown)
    else if n == 20 then Some(AutoMoveLeft) else if n == 21 then Some(AutoMoveRight)
    else if n == 22 then Some(AutoRotate) else None
  }

  /** Distinct enumerators have distinct values, so a command survives the trip through its value. */
  lemma OrdinalRoundTrip(c: Command)
    ensures FromOrdinal(Ordinal(c)) == Some(c)
  {
  }

  /**
   * `MessageData`. The lap number and the version are `None` while
   * indeterminate: the default constructor does not set the lap number, and
   * only `serialize` sets the version.
   */
  datatype MessageData = MessageData(img: Mat, command: Command, lapNo: Option<int>, version: Option<nat>,
                                     timeStamp: Timestamp, commandIndex: int)

  /** `MessageData()`: an empty image, no command, index -1, no time stamp. */
  function Default(): (m: MessageData)
    ensures m.img.Valid() && m.img.Empty()
    ensures m.command == NoCommand && m.commandIndex == -1 && m.timeStamp == NotADateTime
    ensures m.lapNo.None? && m.version.None?
  {
    MessageData(EmptyMat, NoCommand, None, None, NotADateTime, -1)
  }

  /** The copy constructor: a deep copy of the image, the other fields copied except the version. */
  function Copy(src: MessageData): (m: MessageData)
    requires src.img.Valid()
    ensures m.img.Valid() && m.img.Continuous()
    ensures m.img.rows == src.img.rows && m.img.cols == src.img.cols && m.img.typ == src.img.typ
    ensures Contents(m.img) == Contents(src.img)
    ensures m.command == src.command && m.lapNo == src.lapNo && m.timeStamp == src.timeStamp
    ensures m.commandIndex == src.commandIndex && m.version.None?
  {
    MessageData(Clone(src.img), src.command, src.lapNo, None, src.timeStamp, src.commandIndex)
  }

  /** `isCommandMessage(cm)` */
  predicate IsCommandMessage(msg: MessageData, cm: Command) {
    msg.command == cm
  }

  /** `createMessage(cm)` at the local time `now` (microseconds). */
  function CreateMessage(cm: Command, now: int): (m: MessageData)
    ensures m == Default().(command := cm, timeStamp := At(now))
  {
    MessageData(EmptyMat, cm, None, None, At(now), -1)
  }

  /** `createMessageCommand(index, cm)` at the local time `now`. */
  function CreateMessageCommand(index: int, cm: Command, now: int): (m: MessageData)
    ensures m == CreateMessage(cm, now).(commandIndex := index)
  {
    MessageData(EmptyMat, cm, None, None, At(now), index)
  }

  /**
   * A created message is a command message for exactly the command it was
   * created with, keeps index -1 unless created with an index, and carries
   * the time of its creation.
   */
  lemma CreatedMessages(cm: Command, other: Command, index: int, now: int)
    ensures IsCommandMessage(CreateMessage(cm, now), other) <==> cm == other
    ensures IsCommandMessage(CreateMessageCommand(index, cm, now), other) <==> cm == other
    ensures CreateMessage(cm, now).commandIndex == -1 && CreateMessageCommand(index, cm, now).commandIndex == index
    ensures CreateMessage(cm, now).timeStamp == At(now) == CreateMessageCommand(index, cm, now).timeStamp
  {
  }

  /** An `int` as written: an indeterminate one as an indeterminate value. */
  function IntItem(x: Option<int>): Item {
    if x.Some? then Int(x.value) else Indeterminate
  }

  /** The values `serialize` writes: image, lap number, command, time stamp, command index. */
  function MessageItems(msg: MessageData): (r: seq<Item>)
    requires msg.img.Valid()
    ensures |r| == 9 && r[..5] == MatItems(msg.img)
  {
    MatItems(msg.img) + [IntItem(msg.lapNo), Int(Ordinal(msg.command)), Stamp(msg.timeStamp), Int(msg.commandIndex)]
  }

  /** An error for a command value outside the enumeration (the source casts it unchecked). */
  const ErrCommand := "command value outside the enumeration"

  /** What `serialize` on an input archive reads at position `p`, with class version `version`. */
  function LoadMessageAt(items: seq<Item>, p: nat, version: nat): (r: Result<(MessageData, nat)>)
    ensures r.Ok? ==> r.value.0.img.Valid() && r.value.0.version == Some(version) && r.value.1 == p + 9
  {
    var img := LoadAt(items, p);
    if img.Err? then Err(img.msg)
    else if p + 9 > |items| then Err(ErrStream)
    else if !(items[p + 5].Int? || items[p + 5].Indeterminate?) || !items[p + 6].Int? || !items[p + 7].Stamp?
         || !items[p + 8].Int? then Err(ErrStream)
    else if FromOrdinal(items[p + 6].i).None? then Err(ErrCommand)
    else
      var lapNo := if items[p + 5].Int? then Some(items[p + 5].i) else None;
      Ok((MessageData(img.value.0, FromOrdinal(items[p + 6].i).value, lapNo, Some(version), items[p + 7].t,
                      items[p + 8].i), p + 9))
  }

  /** `serialize(ar, version)` on an output archive: writes the fields and records the version. */
  method SerializeOut(ar: OArchive, msg: MessageData, version: nat) returns (after: MessageData)
    requires msg.img.Valid()
    modifies ar
    ensures ar.items == old(ar.items) + MessageItems(msg)
    ensures after == msg.(version := Some(version))
  {
    Save(ar, msg.img);
    ar.Put(IntItem(msg.lapNo));
    ar.Put(Int(Ordinal(msg.command)));
    ar.Put(Stamp(msg.timeStamp));
    ar.Put(Int(msg.commandIndex));
    after := msg.(version := Some(version));
  }

  /** `serialize(ar, version)` on an input archive: reads the fields in the same order and records the version. */
  method SerializeIn(ar: IArchive, version: nat) returns (r: Result<MessageData>)
    modifies ar
    ensures LoadMessageAt(ar.items, old(ar.pos), version).Ok? ==>
              r == Ok(LoadMessageAt(ar.items, old(ar.pos), version).value.0) &&
              ar.pos == LoadMessageAt(ar.items, old(ar.pos), version).value.1
    ensures LoadMessageAt(ar.items, old(ar.pos), version).Err? ==>
              r == Err(LoadMessageAt(ar.items, old(ar.pos), version).msg)
  {
    var img := Load(ar);
    if img.Err? { return Err(img.msg); }
    var p := ar.pos;
    if !(p < |ar.items| && (ar.items[p].Int? || ar.items[p].Indeterminate?)) { return Err(ErrStream); }
    var lapNo := if ar.items[p].Int? then Some(ar.items[p].i) else None;
    ar.pos := p + 1;
    var command := ar.ReadInt();
    if command.Err? { return Err(command.msg); }
    if !(ar.pos < |ar.items| && ar.items[ar.pos].Stamp?) { return Err(ErrStream); }
    var timeStamp := ar.items[ar.pos].t;
    ar.pos := ar.pos + 1;
    var commandIndex := ar.ReadInt();
    if commandIndex.Err? { return Err(commandIndex.msg); }
    var c := FromOrdinal(command.value);
    if c.None? { return Err(ErrCommand); }
    r := Ok(MessageData(img.value, c.value, lapNo, Some(version), timeStamp, commandIndex.value));
  }

  /**
   * Reading back what `serialize` wrote gives a message with an image of the
   * same size, type and elements, the same command, lap number, time stamp
   * and index, and the reading side's version; it continues after the message.
   */
  lemma MessageRoundTrip(msg: MessageData, version: nat, before: seq<Item>, after: seq<Item>)
    requires msg.img.Valid()
    ensures var r := LoadMessageAt(before + MessageItems(msg) + after, |before|, version);
            r.Ok? && r.value.1 == |before| + 9 &&
            r.value.0.command == msg.command && r.value.0.lapNo == msg.lapNo &&
            r.value.0.timeStamp == msg.timeStamp && r.value.0.commandIndex == msg.commandIndex &&
            r.value.0.version == Some(version) &&
            r.value.0.img.rows == msg.img.rows && r.value.0.img.cols == msg.img.cols &&
            r.value.0.img.typ == msg.img.typ && Contents(r.value.0.img) == Contents(msg.img)
  {
    var items := before + MessageItems(msg) + after;
    var rest := [IntItem(msg.lapNo), Int(Ordinal(msg.command)), Stamp(msg.timeStamp), Int(msg.commandIndex)] + after;
    assert items == before + MatItems(msg.img) + rest;
    RoundTrip(msg.img, before, rest);
    var p := |before|;
    assert items[p + 5] == IntItem(msg.lapNo) && items[p + 6] == Int(Ordinal(msg.command));
    assert items[p + 7] == Stamp(msg.timeStamp) && items[p + 8] == Int(msg.commandIndex);
    OrdinalRoundTrip(msg.command);
  }
}
