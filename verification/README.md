# A model of the remote shells, the chat servers and the CGI console

The repository holds a series of network programs: a remote shell with numbered pipes
(`np_simple`), a multi-user version in one process (`np_single_proc`), another with one process for
each user and shared memory (`np_multi_proc`), and an HTTP server whose CGI console drives the
shells from a web page. This project models their stateful core and their parsers, and proves what
they promise over whole runs, or exactly when they keep the promise.

## The parts

**The numbered-pipe shell.** `Kernel` is the shell's descriptor table: `pipe` may return any two
unused numbers, `fork` copies the table, `close` and `dup2` count every miss. `Engine` has the shell
itself, with the source's loops: the window of nodes, the slicing of pipelines longer than 50 stages,
the temporary node for each cut, the descriptors closed in the shell and in the children. `Session`
states what one line does, in absolute line numbers (`Step`), and the invariant of the states
between lines. A child has a table by which its stage is connected, and one with which it calls exec,
after a redirection to a file; whether a child can open its file is an input of the session. `Chunks` and
`Slicing` hold the lemmas by which the loops of `Engine` establish `Step`. `Runs` proves the results about every reachable state, and `Engine` that its shell is
never in another one; `Departures` reaches the exceptions, and types lines at a shell. `Meaning` proves that the network of processes
has exactly one solution, and that it computes what the pipelines mean, when every command is a function
of the stream it reads. A command may mix in its own standard error and several writers of one pipe may
interleave; both are left to uninterpreted functions.

**The single-process server.** `Users` is the world as its users see it: who is connected, and which
user pipes join whom, as a state machine over connections, lines and departures. `Server` has the
client table, the open sockets and `PostOffice`, the rows of user pipes, updated in place. Each
operation is proved to be a step of that world, and a line to be the events that it asks for: a pipeline
is searched command by command for `<n` and `>n`, up to the first user pipe that is refused.

**The multi-process server's messages.** `Mailbox` is one row of five slots, `Inbox` the 35 rows of
one receiver as a state machine in which posts fall between any two slots that the signal handler
visits, and `SharedMemory` the client array with the loops that post and drain. Every client of the array
carries the inbox that its slots have come from, so the results about runs of an inbox hold of it.

**Parsers and encoders.** `Text` models the string library calls that the parsers share, and `Words` says what
they give for texts built of words, gaps and numbers. `Typing` applies that to the two shells: which typed
commands are redirected, and which events a typed line of the chat server is. `LineParser`,
`HttpRequest` with `HttpRoundTrip`, `QueryString` and `HtmlEncoder` each give the source's algorithm and an
inverse; `HtmlEncoder` also follows the encoded text through the script's string literal to the page.

## What the code does not promise

Where the code departs from its evident intent, the model follows the code, and the theorem says
exactly when the intent is met.

- A line of more than 50 stages with `|N` opens its destination's pipe, but its last stage writes to
  the terminal, and a last command that is redirected to a file writes the file (`Runs.Delivery`); `!N` to
  a destination that already has a pipe leaves standard error at the terminal (`Runs.ErrorDelivery`).
- A child whose file cannot be opened makes a dup2 that misses, and runs no command (`Runs.NoFaults`,
  `Departures.RefusedFile`).
- A built-in line that is a destination drops its node without closing the pipe (`Runs.Conservation`).
- The loop that should wait for all but the last child compares the number of children with one less
  than itself, so it waits for no child (`Runs.PromptWaits`).
- A user's id is 1 to 35, but the table of user pipes has rows 0 to 34: user 35 cannot pipe to
  anybody, and its departure ends the server (`Server.Server.Depart`, `Users.LastUserLeaves`). Looking up
  user -1 finds a free slot, so `>-1` leaves a pipe that nobody can receive (`Users.NoStalePipesKept`).
- A message posted while the handler is at work can be printed before earlier ones (`Inbox.OrderKept`).
- The HTTP parser drops one character after a header's colon, whatever it is, where section 3.2 of
  RFC 7230 allows any number of blanks (`HttpRequest.OneBlankBefore`).
- A request line with a colon, as in `GET /?u=http://a HTTP/1.1`, is taken for a header. A header named
  like a key of the request line loses its value, one named HTTP_HOST takes the place of the host, and
  the lines of a body are read like the lines before it (`HttpRoundTrip.ParsePrinted`).
- Words that should be numbers are converted outside any handler, so `cat <x`, `ls >foo`, `tell x y` and
  `ls |x` end the single-process server, and so does `setenv A` (`Typing.TypedPipeline`, `Typing.TellOther`,
  `Typing.SetEnvLine`).
- Text that ends in an odd number of backslashes swallows the quote that should end the script's string
  (`HtmlEncoder.ShellLiteral`), and text with any backslash is not what the page shows
  (`HtmlEncoder.ShownText`).
- The comments of the shared-memory constants speak of 10 messages of 1024 bytes; the code has 5 of
  2048, and so has the model.

## Model

| member | source | states |
|---|---|---|
| Kernel.Descriptors.Fork | Network Programming/pj2/0756633/simple_Command.cpp:104-107 | a child starts with the shell's table and no missed call |
| Kernel.Descriptors.Pipe | Network Programming/pj2/0756633/simple_Command.cpp:86-93 | two unused numbers, whichever they are, now hold the two ends of a new pipe, and nothing else changes |
| Kernel.Descriptors.Open | Network Programming/pj2/0756633/simple_Command.cpp:133 | the file is on a number that was unused, if it can be opened; otherwise nothing changes and the number is not open |
| Kernel.Descriptors.Close | Network Programming/pj2/0756633/simple_Command.cpp:58-61 | the number is free; closing a number that is not open counts as a fault |
| Kernel.Descriptors.Dup2 | Network Programming/pj2/0756633/simple_Command.cpp:110-126 | the target number holds the source's end; a source that is not open is a fault and changes nothing |
| Kernel.Pipes.OpenPipes | Network Programming/pj2/0756633/simple_Pipes.h:10-17 | the first n entries of the global array hold n new pipes in order, all on numbers that were unused |
| Kernel.Pipes.ClosePipes | Network Programming/pj2/0756633/simple_Pipes.h:19-24 | exactly these numbers are closed; when they hold pipes, no close misses, so none is closed twice |
| Session.StepKeepsInv | Network Programming/pj2/0756633/simple_Command.cpp:6-128 | every line, of any length, keeps the invariant: window slots match absolute line numbers, the shell holds just the pipes of lines to come, and writers of a pipe come before its reader |
| Runs.ReachableStep | Network Programming/pj2/0756633/simple_Command.cpp:6-79 | what one line makes of a reachable state is reachable, so that the results about runs hold of every shell that the engine produces |
| Runs.Routing | Network Programming/pj2/0756633/simple_Command.cpp:81-140 | on every run, a line reads a pipe exactly when an earlier line was sent to it; the commands whose standard output is that pipe are exactly the last ones, if not redirected to a file, of the lines of at most 50 stages sent to it, and no other process reads it |
| Runs.EndOfFileOrder | Network Programming/pj2/0756633/simple_Command.cpp:109-140 | on every run, each process that holds a write end of a pipe, before or after a redirection, was forked before the pipe's reader, and the shell holds none: nobody waits for end of file from itself or a later process |
| Runs.Conservation | Network Programming/pj2/0756633/simple_Command.cpp:15-76 | the pipe ends that the shell holds between lines are exactly those of the pending nodes, if and only if no line was sent to a built-in line |
| Runs.BuiltInLeaks | Network Programming/pj2/0756633/simple_Command.h:18-21 | both ends of the pipe to a built-in line stay open in the shell, in no node of the window |
| Runs.DevicesKept | Network Programming/pj2/0756633/simple_Command.cpp:43-76 | on every run the shell keeps exactly the terminal descriptors it started with |
| Runs.NoFaults | Network Programming/pj2/0756633/simple_Command.cpp:58-64 | on every run, no close or dup2 of the shell hits a descriptor that is not open, however numbers are reused; none of a child does, and its command runs, if and only if the child is not redirected to a file that it cannot open; for such a child exactly one call misses |
| Runs.Delivery | Network Programming/pj2/0756633/simple_Command.cpp:37-40 | on every run, the last command of a line runs if and only if it is not redirected to a file that cannot be opened; it writes the file it is redirected to, wherever the line was sent; if it is not redirected, the destination if and only if the line has one and at most 50 stages, and else the terminal |
| Runs.ErrorDelivery | Network Programming/pj2/0756633/simple_Command.cpp:86-99 | its standard error reaches the destination, redirected or not, if and only if the line has at most 50 stages, asked for it and was the first sent there |
| Runs.PromptWaits | Network Programming/pj2/0756633/simple_Command.cpp:66-78 | on every run the shell has waited for all children, of every chunk, of the lines that end at the terminal, and for none of the lines that deliver |
| Meaning.OneSolution | Network Programming/pj2/0756633/simple_Command.cpp:43-64 | every reachable network of processes assigns exactly one stream to each process, whatever functions the commands are |
| Meaning.SessionMeaning | Network Programming/pj2/0756633/simple_Command.cpp:29-76 | slicing preserves meaning: in that solution, stage k of a line of any length contributes what the first k + 1 commands of the unsliced line compute from what the line was sent, where a command redirected to a file passes on no more than its standard error |
| Meaning.FileMeaning | Network Programming/pj2/0756633/simple_Command.cpp:130-140 | a command that is redirected writes to its file what it makes of its stage's input, by line numbers, whatever the line's length and destination; if the file cannot be opened it writes nothing |
| Meaning.StageEquation | Network Programming/pj2/0756633/simple_Command.cpp:42-64 | stage by stage, on every run: a command writes what it makes of what the stage before it writes; the first one reads the terminal, or what the last stage of the one line writes that was sent there |
| Engine.Shell.constructor | Network Programming/pj2/0756633/simple_Command.cpp:4 | the shell begins with a window of 1500 default nodes, in a reachable session |
| Engine.Shell.OpenNumberedPipe | Network Programming/pj2/0756633/simple_Command.cpp:81-100 | a default destination gets a new pipe, which the front node writes; another shares the pipe it has, for standard output only |
| Engine.Shell.Connect | Network Programming/pj2/0756633/simple_Command.cpp:109-126 | the child's standard streams are the ones it was given, and it closes the write end of the pipe it reads |
| Engine.Shell.Redirect | Network Programming/pj2/0756633/simple_Command.cpp:130-140 | a command that ends in `> file` after a word writes that file and nothing else changes; a file that cannot be opened costs one missed dup2, after which the child throws |
| Engine.Shell.ForkProcess | Network Programming/pj2/0756633/simple_Command.cpp:102-140 | one more process, with its streams connected, the chunk's pipes closed and its redirection made in it; the shell is unchanged |
| Engine.Shell.StartStages | Network Programming/pj2/0756633/simple_Command.cpp:42-64 | a chunk's stages are connected one to the next, hold no write end of an earlier stage, redirect only their own output, and leave the shell without the chunk's pipes and the pipe it read |
| Engine.Shell.WaitForChunk | Network Programming/pj2/0756633/simple_Command.cpp:66-72 | all children so far have been waited for when the chunk writes to the terminal; none otherwise |
| Engine.Shell.RunChunks | Network Programming/pj2/0756633/simple_Command.cpp:29-76 | the slicing loop ends with every command forked once, in order, connected as one pipeline, and with the window and the table it began with but for the front node |
| Engine.Shell.RunPipeline | Network Programming/pj2/0756633/simple_Command.cpp:6-79 | a fork line is one step of the session, to a reachable state: one slot is used up whatever the length, no node but the destination's changes, and at most 102 descriptors more than on entry are open at any time, 104 with a destination |
| Engine.Shell.RunBuiltIn | Network Programming/pj2/0756633/simple_Command.h:18-21 | an environment line uses up a slot and changes nothing else |
| Engine.Shell.Handle | Network Programming/pj2/0756633/simple_Shell.h:16-48 | a line that begins with printenv, setenv or unsetenv and a blank uses up a slot and does nothing else; the session is unchanged exactly by the empty line; the loop ends exactly with `exit`, the end of the input and a number that stoi rejects; any other input is the step of the commands, the destination and the flag that it is parsed to |
| Departures.RedirectsTo | Network Programming/pj2/0756633/simple_Command.cpp:130-133 | a command, the mark and a file name, with single blanks, are a redirection to that file |
| Departures.BuiltInDestination | Network Programming/pj2/0756633/simple_Command.h:18-21 | a shell that has sent a line to a built-in one |
| Departures.SlicedDestination | Network Programming/pj2/0756633/simple_Command.cpp:37-40 | a shell whose line of 51 stages, sent to the next line, does not write the pipe of that line |
| Departures.SharedErrors | Network Programming/pj2/0756633/simple_Command.cpp:97-99 | a shell whose second line with `!N` to the same destination leaves its standard error at the terminal |
| Departures.RedirectedDestination | Network Programming/pj2/0756633/simple_Command.cpp:130-140 | a shell whose line `ls > f`, sent to the next line, writes the file and not the pipe |
| Departures.RefusedFile | Network Programming/pj2/0756633/simple_Command.cpp:133-135 | a shell whose line `ls > f` runs no command and misses one call, since f cannot be opened |
| Departures.TypePipeline | Network Programming/pj2/0756633/simple_Shell.h:24-46 | commands typed with bars between them, and perhaps a destination, are run as exactly that line |
| Departures.TypeEnvironment | Network Programming/pj2/0756633/simple_Shell.h:32-37 | printenv, setenv or unsetenv, a blank and anything use up a slot |
| Typing.RedirectsWhen | Network Programming/pj2/0756633/simple_Command.cpp:130-133 | words typed with any blanks, tabs and line feeds between them are redirected if and only if there are more than two and the last but one is `>`, and the file is the last one |
| Typing.NotRedirected | Network Programming/pj2/0756633/simple_Command.cpp:130-133 | a command without `>` is never redirected, whatever else it holds |
| LineParser.ParseLine | Network Programming/pj2/0756633/single_proc_main.cpp:405-417 | the in-place parse computes the specified commands, number and flag |
| LineParser.ParsePrinted | Network Programming/pj2/0756633/single_proc_StringManipulator.h:9-39 | parsing a printed line gives its commands, number and flag back, if and only if the number fits an int; beyond that stoi throws |
| LineParser.ParseAny | Network Programming/pj2/0756633/single_proc_StringManipulator.h:9-39 | any line at all: its commands are the trimmed pieces between bars; what follows the last blank is the destination if a bar begins it, and no command then unless it is 0; without a number the parse throws |
| LineParser.AlwaysACommand | Network Programming/pj2/0756633/simple_Command.cpp:13-18 | popping the number's token always leaves a command |
| Text.SplitAndTrim | Network Programming/pj2/0756633/simple_StringManipulator.h:15-23 | trimming the items in place gives the trimmed tokens of the trimmed text |
| Text.StoiOfDecimal | Network Programming/pj2/0756633/simple_StringManipulator.h:30-33 | reading a printed number gives it back, and fails exactly past the largest int |
| Words.SplitSpread | Network Programming/pj2/0756633/simple_StringManipulator.h:19-20 | splitting a text gives the pieces back whatever the gaps between them are, of one delimiter or more |
| Words.TokensOfWords | Network Programming/pj2/0756633/simple_StringManipulator.h:15-23 | the tokens of typed words are the words, whatever gaps lie between them and white space around them |
| Words.StoiOfNumber | Network Programming/pj2/0756633/simple_StringManipulator.h:30-33 | white space, a sign, zeros, a number and anything but a figure are read as that number, if and only if it fits an int |
| Words.StoiOfOther | Network Programming/pj2/0756633/simple_StringManipulator.h:30-33 | without a figure after white space and sign there is no number |
| Words.DecimalDigits | Network Programming/pj2/0756633/single_proc_main.cpp:564 | a number is printed with the figures of its tens before the figure of its ones |
| PostOffice.PostOffice.Insert | Network Programming/pj2/0756633/single_proc_main.cpp:116-127 | insertion fails exactly when the sender has no row or the key is present; otherwise the partial map gains the new pipe |
| PostOffice.PostOffice.Erase | Network Programming/pj2/0756633/single_proc_main.cpp:102-114 | erasure fails exactly when the key is absent; otherwise the map loses it and its pipe joins the removal queue |
| PostOffice.PostOffice.DeleteQueued | Network Programming/pj2/0756633/single_proc_main.cpp:95-100 | the queue is emptied and exactly its pipes are closed |
| PostOffice.PostOffice.EraseReceiver | Network Programming/pj2/0756633/single_proc_main.cpp:78-86 | the erasing loop over a row removes exactly the receiver's entry and leaves the other rows alone |
| PostOffice.PostOffice.DeleteAll | Network Programming/pj2/0756633/single_proc_main.cpp:77-93 | exactly the row and the column of the user are gone, every read end is still in one place, and the call throws exactly when the user has no row |
| PostOffice.DroppedTable | Network Programming/pj2/0756633/single_proc_main.cpp:102-111 | a row that loses a receiver's entry, wherever it stands, makes the table lose exactly that key |
| PostOffice.RemovedCount | Network Programming/pj2/0756633/single_proc_main.cpp:102-111 | a read end that moves from the table to the queue, or is closed, is still in exactly one place |
| PostOffice.Deleted | Network Programming/pj2/0756633/single_proc_main.cpp:77-93 | clearing a column and then a row removes exactly the keys of that user |
| Server.FoundByUid | Network Programming/pj2/0756633/single_proc_main.cpp:361-364 | the scan by id stops at slot id - 1 for a connected user, at a free slot for -1, and nowhere else |
| Server.FoundByFd | Network Programming/pj2/0756633/single_proc_main.cpp:356-359 | the scan by socket finds the connected client that has it, exactly when the socket is open |
| Server.FoundFree | Network Programming/pj2/0756633/single_proc_main.cpp:349-352 | the scan for a free slot finds the lowest free id |
| Server.Server.InsertNewClient | Network Programming/pj2/0756633/single_proc_main.cpp:349-354 | the client gets the lowest free id, its socket and the name `(no name)`, and nothing else changes |
| Server.Server.GetClientByFd | Network Programming/pj2/0756633/single_proc_main.cpp:356-359 | agrees with the open sockets, which are exactly the connected clients' |
| Server.Server.GetClientByUid | Network Programming/pj2/0756633/single_proc_main.cpp:361-364 | agrees with direct indexing |
| Server.Server.SetName | Network Programming/pj2/0756633/single_proc_main.cpp:388-403 | the name is refused, and nothing changes, exactly when a connected client has it, the asking one included; otherwise the client has the new name, and nothing else changes |
| Server.Server.TellUser | Network Programming/pj2/0756633/single_proc_main.cpp:378-386 | the message goes to the socket of the connected target; an id without a slot is an exception |
| Server.Server.ExecuteLine | Network Programming/pj2/0756633/single_proc_main.cpp:663-698 | the events of a line, which the rows of Typing spell out, are performed, up to the first that is refused, and the tables still agree; the server ends exactly when one of them crashes |
| Server.Server.PipelinePipes | Network Programming/pj2/0756633/single_proc_main.cpp:405-489 | a pipeline asks for its commands' user pipes in order and stops at the first that is refused; the read ends that were taken are closed if and only if none was, and stay queued otherwise |
| Server.Server.CommandPipes | Network Programming/pj2/0756633/single_proc_main.cpp:453-460 | a command asks for the pipe of its first `<n`, and then, without that word and a redirection to a file, for the pipe of its first `>n` |
| Users.LineRuns | Network Programming/pj2/0756633/single_proc_main.cpp:663-698 | performing a line's events is a run of the user world in which every event was granted, to their end or to just before the first that is refused or crashes |
| Typing.TypedPipeline | Network Programming/pj2/0756633/single_proc_main.cpp:560-640 | a typed pipeline is exactly the user pipes of its commands, command by command: to receive from the number after the first `<`, then to send to the number after the first `>` that is left without a redirection to a file, in whichever order they are typed; what stoi rejects ends the server |
| Typing.LeavingLines | Network Programming/pj2/0756633/single_proc_main.cpp:663-669 | `exit` and anything, and at the end of the input any line but an empty one, is a departure |
| Typing.QuietLines | Network Programming/pj2/0756633/single_proc_main.cpp:670-689 | printenv, who and yell touch no user and no pipe |
| Typing.NameLine | Network Programming/pj2/0756633/single_proc_main.cpp:684-685 | `name x` asks for the name x, whatever x is |
| Typing.TellLine | Network Programming/pj2/0756633/single_proc_main.cpp:690-695 | `tell n` and a text tells user n, if n fits an int |
| Typing.TellOther | Network Programming/pj2/0756633/single_proc_main.cpp:690-695 | tell without a number ends the server |
| Typing.SetEnvLine | Network Programming/pj2/0756633/single_proc_main.cpp:675-681 | setenv with two words or more is quiet, and with one ends the server |
| Server.Server.PipeTo | Network Programming/pj2/0756633/single_proc_main.cpp:600-640 | a client with a row that pipes to a client that is found, and has no pipe there yet, makes a new pipe; otherwise nothing changes; a word that is no number ends the server |
| Server.Server.PipeFrom | Network Programming/pj2/0756633/single_proc_main.cpp:565-598 | the pipe from a client that is found is received and leaves the table; without one nothing changes; a word that is no number ends the server |
| Server.Server.Depart | Network Programming/pj2/0756633/single_proc_main.cpp:331-339 | exactly the user, and the pipes from and to it, are gone; user 35 ends the server |
| Users.RunKeepsInv | Network Programming/pj2/0756633/single_proc_main.cpp:301-344 | over every run, ids are 1 to 35, sockets are distinct, two users share a name only if it is `(no name)`, and every user pipe has a connected sender and a connected receiver or -1 |
| Users.ReachableStep | Network Programming/pj2/0756633/single_proc_main.cpp:301-344 | what an event makes of a reachable world is reachable, so that the results about runs hold of every state of the server |
| Users.NoStalePipesKept | Network Programming/pj2/0756633/single_proc_main.cpp:600-615 | an event leaves no pipe that joins anybody but two connected users, if and only if it does not pipe to -1 while a slot is free, the sender has a row and no such pipe is there yet |
| Users.NoStalePipesOverRuns | Network Programming/pj2/0756633/single_proc_main.cpp:77-93 | over every run without such an event, every user pipe joins two connected users |
| Users.NewcomerInheritsNothing | Network Programming/pj2/0756633/single_proc_main.cpp:349-354 | over every run at all, whoever is given a free id finds no pipe to or from it |
| Users.PipesJoinSessions | Network Programming/pj2/0756633/single_proc_main.cpp:565-640 | a pipe from a to b is in the table exactly when a piped to b once and since then neither left and b did not receive it: it joins the very sessions that made it |
| Users.SessionsOverRuns | Network Programming/pj2/0756633/single_proc_main.cpp:349-354 | over every run, a user is connected exactly when a connection gave it its id, the lowest that was free, and it has not left since |
| Users.NameOverRuns | Network Programming/pj2/0756633/single_proc_main.cpp:388-403 | over every run, a user has the socket of its connection, and the last name that was granted since, or `(no name)` |
| Users.PipingToAFreeSlot | Network Programming/pj2/0756633/single_proc_main.cpp:361-364 | a run of two events in which `>-1` leaves a pipe that joins a user to nobody |
| Users.LastUserLeaves | Network Programming/pj2/0756633/single_proc_main.cpp:88-92 | a run of 35 connections after which the departure of user 35 ends the server |
| Mailbox.DroppedWhenFull | Network Programming/pj2/0756633/multi_proc_SharedMemory.h:106-112 | a text finds no slot exactly when five of its sender are pending |
| Mailbox.PostOrder | Network Programming/pj2/0756633/multi_proc_SharedMemory.h:106-112 | the first free slot is the end of the queue, unless the slots behind the running drain are all refilled, with some other text, and one ahead is free |
| Mailbox.VisitOrder | Network Programming/pj2/0756633/multi_proc_SharedMemory.h:48-54 | a visited slot holds the head of the queue or nothing |
| Inbox.OrderKept | Network Programming/pj2/0756633/multi_proc_SharedMemory.h:43-57 | a step keeps a sender's texts in the order they were sent, if and only if it is not an overtaking post of that sender |
| Inbox.RunKeepsInv | Network Programming/pj2/0756633/multi_proc_SharedMemory.h:43-57 | over every interleaving, overtaking or not, no text is lost or printed twice, the slots behind and ahead of the drain are each filled from the front, and a text the running drain will miss has a signal pending |
| Inbox.BoundedQueue | Network Programming/pj2/0756633/multi_proc_SharedMemory.h:160-176 | over every interleaving, a post is dropped exactly when five texts of its sender are pending |
| Inbox.FirstInFirstOut | Network Programming/pj2/0756633/multi_proc_SharedMemory.h:43-57 | over every interleaving without an overtaking post, printed texts followed by pending ones are the accepted ones in order |
| Inbox.QuietIsDelivered | Network Programming/pj2/0756633/multi_proc_SharedMemory.h:101-115 | when the handler is idle and no signal is pending, every accepted text has been printed exactly once |
| Inbox.IdlePrefix | Network Programming/pj2/0756633/multi_proc_SharedMemory.h:47-55 | while the handler is idle the occupied slots of each sender are a prefix of the five |
| Inbox.OvertakingRun | Network Programming/pj2/0756633/multi_proc_SharedMemory.h:48-54 | a run in which a user sends a, b, c and the terminal shows a, c, b |
| SharedMemory.PostedIsStep | Network Programming/pj2/0756633/multi_proc_SharedMemory.h:106-112 | what a post does to a client's slots and signal is a step of its inbox, to a reachable one |
| SharedMemory.VisitedIsStep | Network Programming/pj2/0756633/multi_proc_SharedMemory.h:49-53 | what a visit prints and clears is a step of the inbox, to a reachable one |
| SharedMemory.SlotsAfter | Network Programming/pj2/0756633/multi_proc_SharedMemory.h:106-112 | a post fills the first free slot of the sender's row and nothing else; a visit frees one slot and nothing else |
| SharedMemory.OutputInOrder | Network Programming/pj2/0756633/multi_proc_SharedMemory.h:47-55 | a drain prints all rows in order, and the five slots of each in order |
| SharedMemory.SharedMemory.Delivered | Network Programming/pj2/0756633/multi_proc_SharedMemory.h:101-115 | a client whose handler is not running, and that has no signal pending, has printed every text that found a slot exactly once, whatever posts and visits came before |
| SharedMemory.SharedMemory.PostTo | Network Programming/pj2/0756633/multi_proc_SharedMemory.h:106-112 | the loop over the slots fills the first free one and signals, a step of the receiver's inbox; with none free nothing changes |
| SharedMemory.SharedMemory.VisitSlot | Network Programming/pj2/0756633/multi_proc_SharedMemory.h:48-54 | the handler prints and clears the slot that is next in its inbox's drain |
| SharedMemory.SharedMemory.InsertClient | Network Programming/pj2/0756633/multi_proc_SharedMemory.h:78-94 | the newcomer takes the lowest free slot but 0 and begins a new inbox, empty and without a signal; when all are taken it goes on as 0 |
| SharedMemory.SharedMemory.RemoveClient | Network Programming/pj2/0756633/multi_proc_SharedMemory.h:96-99 | the slot is free and its inbox empty |
| SharedMemory.SharedMemory.Broadcast | Network Programming/pj2/0756633/multi_proc_SharedMemory.h:101-115 | every connected client's row for the sender gets the text in its first free slot, if any, with a signal; nobody else's changes |
| SharedMemory.SharedMemory.Tell | Network Programming/pj2/0756633/multi_proc_SharedMemory.h:160-176 | only the target's row for the sender changes, and only if the target is connected |
| SharedMemory.SharedMemory.SignalHandler | Network Programming/pj2/0756633/multi_proc_SharedMemory.h:43-57 | undisturbed, the handler of a pending signal prints every waiting text sender by sender, slot by slot, leaves the inbox empty and is done |
| HttpRequest.ParseHttpRequest | Network Programming/pj3/0756633/http_server.cpp:36-92 | the two loops compute the specified lines and map, with the exceptions |
| HttpRequest.EndsIgnored | Network Programming/pj3/0756633/http_server.cpp:39-47 | lines that end with a line feed, with or without a carriage return before it, in any mixture, are parsed to the same parts (RFC 7230, section 3.5), whatever follows the last line feed |
| HttpRequest.ParsePrintedParts | Network Programming/pj3/0756633/http_server.cpp:39-82 | a request printed with any mixture of line ends is read as its request line, its headers in turn, the first of a name prevailing, and then the lines of its body in the same way |
| HttpRoundTrip.ParsePrinted | Network Programming/pj3/0756633/http_server.cpp:36-92 | for headers with distinct names and any mixture of line ends, the parser undoes the printer (RFC 7230, sections 3.1.1 and 3.2) if and only if the request line has no colon, headers named like the parser's own keys agree with them, and every line of the body, as it is printed, is harmless: method, target and version, path and query that split the target at its first question mark, every header, Host copied to HTTP_HOST, and no other key |
| HttpRoundTrip.BodyLineRead | Network Programming/pj3/0756633/http_server.cpp:51-82 | a printed line of the body changes nothing but the host that is copied anyway, exactly when it is harmless, and else leaves a new key or ends the parse; it ends the parse exactly when nothing follows its colon, or it has one or two words and no colon |
| HttpRequest.OneBlankBefore | Network Programming/pj3/0756633/http_server.cpp:52-57 | a field value is found exactly when one blank comes before it and none after it |
| QueryString.Console.ParseQuery | Network Programming/pj4/0756633/console.cpp:320-343 | the loop over the fields fills the table and the two strings as specified, or ends the program |
| QueryString.ParsePrinted | Network Programming/pj4/0756633/console.cpp:320-343 | parsing undoes printing for fields in any order, with `=` allowed in values: every entry has the value of the last field that sets it, and is empty when none does |
| QueryString.FieldRead | Network Programming/pj4/0756633/console.cpp:322-341 | any field, printed or not: the first `=` ends the key, and a key other than sh and sp counts with its first and its last character |
| QueryString.OrderIgnored | Network Programming/pj4/0756633/console.cpp:320-343 | two queries with the same distinct fields in different orders fill the same form |
| QueryString.ParsesWhenGood | Network Programming/pj4/0756633/console.cpp:322-341 | a query parses exactly when each field has a `=` and, where it sets a host, an index below 5 |
| QueryString.NoQueryThrows | Network Programming/pj4/0756633/console.cpp:294-323 | an unset variable and an empty query both end the program |
| HtmlEncoder.Fusion | Network Programming/pj3/0756633/console.cpp:146-153 | any passes of which none finds its key in a text put in earlier equal one translation, letter by letter |
| HtmlEncoder.EncodeContent | Network Programming/pj3/0756633/console.cpp:124-126 | the seven successive replacements give the letter-by-letter translation |
| HtmlEncoder.EncodedLetters | Network Programming/pj3/0756633/console.cpp:146-153 | which text each letter is replaced by, independently of the letters around it |
| HtmlEncoder.NoRawMarkup | Network Programming/pj3/0756633/console.cpp:127-128 | no quote, angle bracket or line break is left in the encoded text |
| HtmlEncoder.ShellLiteral | Network Programming/pj3/0756633/console.cpp:123-131 | the string literal of a shell's script ends at the quote after the text if and only if the text, without carriage returns, ends in an even number of backslashes |
| HtmlEncoder.CommandLiteral | Network Programming/pj3/0756633/console.cpp:133-141 | the string literal of a command's script always does, because of the end tag |
| HtmlEncoder.OutputShell | Network Programming/pj3/0756633/console.cpp:123-131 | the script for a shell; its literal is exactly the encoded text, if and only if the text ends in an even number of backslashes |
| HtmlEncoder.OutputCommand | Network Programming/pj3/0756633/console.cpp:133-141 | the script for a command; its literal is always the encoded text in bold |
| HtmlEncoder.LiteralKept | Network Programming/pj3/0756633/console.cpp:123-131 | for any meaning of the escapes that shortens them, the literal stands for the encoded text if and only if the text has no backslash, and for a shorter one otherwise |
| HtmlEncoder.ShownText | Network Programming/pj3/0756633/console.cpp:123-131 | with the escapes resolved and the entities read back, the page shows the text, without its carriage returns, if and only if it has no backslash |
| HtmlEncoder.DecodeEncoded | Network Programming/pj3/0756633/console.cpp:123-131 | reading the entities of the encoded text back gives the content without its carriage returns |
| HtmlEncoder.EncodedAlike | Network Programming/pj3/0756633/console.cpp:123-131 | two contents are encoded alike if and only if they differ only in carriage returns |

## Left out

- Engine.Shell.Handle: requires a destination inside the window; outside it (negative, or 1500 and more) the source indexes past its deque, which has no defined behaviour.
- Server.Server.InsertNewClient: requires a free slot; the source writes past a full table.
- Mailbox.Post: a post is one step, so the scan for a free slot and the copy into it are not interleaved with the steps of the drain.
- Inbox.AfterVisit: a visit is one step too. In the source a sender may begin to copy as soon as the first byte of a slot is cleared, and the rest of the clearing then wipes part of its text; that no text is lost rests on visits and posts not overlapping.
- Mailbox.Fits: texts longer than 2048 bytes, which overrun their slot, and texts with a zero byte are excluded.
- SharedMemory.SharedMemory.Tell: requires an id below 35, since the source indexes without a check.
- HtmlEncoder.ShownText: leaves open what each escape stands for, and whether a script with a malformed one runs at all; it requires what the script language promises, that an escape is no longer than its text and that an escaped ampersand is an ampersand.
- Engine.Shell.WaitForChunk: the loop that is left at once is modelled by its effect, and the handler that reaps children in the background is not modelled.
- Sockets, select, exec, the delivery of signals and the contents of files are foreign calls, of which only descriptor tables, inheritance by fork, whether a file can be opened and the pending signal are modelled.
- A failing pipe(), and the time for which fork() is retried: the model's calls succeed.
- Children that write to a full pipe nobody reads, or never exit: the order of ends of file is proved instead.
- Process ids are numbered in fork order; their reuse by the operating system is not modelled.
- The copies of the engine in pj1, `np_multi_proc` and `np_single_proc` repeat the same loops. The single-process copy also returns early after a failed user pipe, with a temporary node and open pipes left behind, never closes the descriptors that it opens in the server for `> file`, does not close the numbered pipe of a line that begins with `<n`, and closes a received user pipe twice; none of this is modelled.
- Engine.Shell.RunBuiltIn: `printenv ` without a word and `setenv A` index past their word vector (simple_Command.cpp:156 and 163), which has no defined behaviour; here, too, such a line only uses up its slot.
- Server.Server.ExecuteLine: a destination outside the client's 2000 nodes, as in `ls |-5`, is indexed past the deque, which has no defined behaviour; here it changes nothing. Only the user pipes of a pipeline are modelled, not the processes and windows of the single-process server, which are those of `Engine`.
- File-backed user pipes of the multi-process server are calls into the file system.
- The SOCKS side of pj4's console, `main.cpp` of pj3, the page templates, banners and logs are repetitions and user interface text.
- SOCKS4 messages, the firewall, the relay loops, and what the environment commands do to variables would add easy members only.
