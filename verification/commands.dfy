/** The command vocabulary of the chat server and the order in which an input
    line is compared with it: the session loop first (`/bye`, `/users`,
    `/roomusers`, `/whisper`, `/invite`), then `processInput` (`/create`,
    `/list`, `/join`, `/exit`), and anything left over is chat text. */
module Commands {

  const ByeCommand: string := "/bye"
  const ListCommand: string := "/list"
  const CreateCommand: string := "/create"
  const JoinCommand: string := "/join"
  const ExitRoomCommand: string := "/exit"
  const UsersCommand: string := "/users"
  const RoomUsersCommand: string := "/roomusers"
  const WhisperCommand: string := "/whisper"
  const InviteCommand: string := "/invite"

  datatype Command =
    | Bye
    | Users
    | RoomUsers
    | Whisper
    | Invite
    | Create
    | ListRooms
    | Join
    | ExitRoom
    | Chat

  /** The classification of one input line, in the order the session loop
      and `processInput` test it.  A line is chat text exactly when it is
      none of the exact command words and starts with none of the prefix
      command words. */
  function Classify(line: string): (cmd: Command)
    ensures cmd == Chat <==>
      && line !in {ByeCommand, UsersCommand, RoomUsersCommand, ListCommand, ExitRoomCommand}
      && !(WhisperCommand <= line) && !(InviteCommand <= line)
      && !(CreateCommand <= line) && !(JoinCommand <= line)
  {
    if line == ByeCommand then Bye
    else if line == UsersCommand then Users
    else if line == RoomUsersCommand then RoomUsers
    else if WhisperCommand <= line then Whisper
    else if InviteCommand <= line then Invite
    // processInput
    else if CreateCommand <= line then Create
    else if line == ListCommand then ListRooms
    else if JoinCommand <= line then Join
    else if line == ExitRoomCommand then ExitRoom
    else Chat
  }

  /** `/bye`, `/users`, `/roomusers`, `/list` and `/exit` must match exactly;
      `/whisper`, `/invite`, `/create` and `/join` only have to start the
      line.  No exact command starts with a prefix command and no two
      prefixes overlap, so each kind is characterised on its own: the
      priority order never decides. */
  lemma ClassifyExact(line: string)
    ensures Classify(line) == Bye <==> line == ByeCommand
    ensures Classify(line) == Users <==> line == UsersCommand
    ensures Classify(line) == RoomUsers <==> line == RoomUsersCommand
    ensures Classify(line) == Whisper <==> WhisperCommand <= line
    ensures Classify(line) == Invite <==> InviteCommand <= line
    ensures Classify(line) == Create <==> CreateCommand <= line
    ensures Classify(line) == ListRooms <==> line == ListCommand
    ensures Classify(line) == Join <==> JoinCommand <= line
    ensures Classify(line) == ExitRoom <==> line == ExitRoomCommand
  {
    SecondCharDecides(line);
  }

  /** Each command word on its own is recognised as its command. */
  lemma ClassifyWords()
    ensures Classify(ByeCommand) == Bye && Classify(UsersCommand) == Users
    ensures Classify(RoomUsersCommand) == RoomUsers && Classify(ListCommand) == ListRooms
    ensures Classify(ExitRoomCommand) == ExitRoom && Classify(CreateCommand) == Create
  {
    ClassifyExact(ExitRoomCommand);
    ClassifyExact(CreateCommand);
    assert CreateCommand <= CreateCommand;
  }

  /** The bare words `/whisper`, `/invite` and `/join` are recognised as their
      commands (whose handlers then reply with usage text or a prompt). */
  lemma ClassifyArgumentWords()
    ensures Classify(WhisperCommand) == Whisper && Classify(InviteCommand) == Invite
    ensures Classify(JoinCommand) == Join
  {
    ClassifyExact(WhisperCommand);
    ClassifyExact(InviteCommand);
    ClassifyExact(JoinCommand);
    assert WhisperCommand <= WhisperCommand && InviteCommand <= InviteCommand && JoinCommand <= JoinCommand;
  }

  /** Every command word has its own second character, so a line equal to,
      or starting with, a command word carries that character at index 1. */
  lemma SecondCharDecides(line: string)
    ensures ByeCommand <= line ==> |line| > 1 && line[1] == 'b'
    ensures UsersCommand <= line ==> |line| > 1 && line[1] == 'u'
    ensures RoomUsersCommand <= line ==> |line| > 1 && line[1] == 'r'
    ensures WhisperCommand <= line ==> |line| > 1 && line[1] == 'w'
    ensures InviteCommand <= line ==> |line| > 1 && line[1] == 'i'
    ensures CreateCommand <= line ==> |line| > 1 && line[1] == 'c'
    ensures ListCommand <= line ==> |line| > 1 && line[1] == 'l'
    ensures JoinCommand <= line ==> |line| > 1 && line[1] == 'j'
    ensures ExitRoomCommand <= line ==> |line| > 1 && line[1] == 'e'
  {
  }
}
