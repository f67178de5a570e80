# voicebots core, modelled in Dafny

A Dafny model of the core of the `voicebots` voice-chat bot. The bot captures microphone audio, streams it to a speech recogniser, and turns the recogniser's responses into transcript events. It decides when the user wants to hang up, and it prompts a completion API through a caching client.

The modelled parts are:

- **The streaming transcript decoder** of `voicebots/asr/google_transcriber.py`: `_handle_transcription_stream` and the `listen` loop, in `google_transcriber.dfy`.
  - The generator is the class `TranscriptionStream`. Its method `Next` is one `next()` call, and it is proved to implement the pure function `Resume` over the generator's state.
  - `Step` is one iteration of the `for response in responses` loop.
  - `GoogleTranscriber.Listen` pulls events until the first final one.
  - Each response carries the seconds elapsed since the decoder started, in place of `time.time()`.
  - The event record `Transcript` of `voicebots/asr/transcriber.py` is in `transcriber.dfy`.
- **The microphone frame queue** of `voicebots/microphone.py`, in `microphone.dfy`.
  - `FrameQueue` is the `queue.Queue`, with a ghost history of what was put and what was taken.
  - `MicrophoneStream` holds the `closed` flag, the driver callback `FillBuffer`, and `open_stream` / `close_stream`.
  - `ChunkGenerator` is the generator returned by `generator()`. Each pull is a blocking get, then a non-blocking drain, then one joined chunk.
  - The driver thread is modelled as `FillBuffer` calls made between pulls.
- **Text helpers** of `voicebots/text_utils.py`: `normalize_text` and `hash_normalized_text`, in `text_utils.dfy`. SHA-256 is a function parameter.
- **The command-line helpers** of `cli.py`: `PROMPT_CONFIG`, `get_prompt_config` and `user_desires_call_end`, in `cli.dfy`.
- **The chat helpers** of `utils.py`: `build_transcript`, `get_prompt_text` on the file's contents, and `make_chat_id` with the uuid as a parameter, in `utils.dfy`.
- **The OpenAI client** of `oai_client.py`, in `oai_client.dfy`:
  - the cache key;
  - the memoisation of API calls;
  - the insert-mode check and split;
  - the request parameters with their defaults;
  - `postprocess_completion_response`.

  The disk cache is a map and the completion API is a function.

Supporting modules:

- `wrappers.dfy`: `Option`, `Result`, and the Python exceptions the code raises, as values.
- `py_str.dfy`: the `str` builtins the code uses (`strip`, `lower`, `replace`, `in`, `find`, `count`, `split`, `join`, `lstrip(chars)`, `capitalize`, `<`), on ASCII whitespace and case.
- `py_dict.dfy`: dicts as their items in insertion order.
- `byte_strings.dfy`: `bytes`, `b"".join` and UTF-8 encoding.

### Behaviour of the code worth noting

- **Deadline event text.** A response without results that ends the utterance, or arrives after the deadline, always ends decoding with a final event. That event carries the last transcript seen, and `deadline_exceeded` is set only when no transcript was seen. The decoder does not go back to waiting when a transcript had been seen.
- **Phrase matching.** Only the normalised transcript is compared against the supported phrases; the phrases are used as given. A phrase with a capital letter therefore never matches (`CapitalisedPhraseNeverMatches`).
- **Frames queued at close.** The generator checks `closed` before it takes anything from the queue. Frames still queued when `close_stream` runs are never yielded (`CloseDropsQueuedFrames`).
- **Sentinel during a drain.** A sentinel met in the middle of a drain also discards the frames already drained in that round (`SentinelDropsDrainedFrames`).
- **Second close.** A second `close_stream` is not guarded: it queues a second sentinel.
- **Close before open.** `close_stream` before `open_stream` raises `AttributeError`, because `_audio_stream` was never set.
- **Strict deadline.** The deadline test is strict (`elapsed > deadline`).
- **Resuming after the deadline event.** The decoder falls through to `response.results[0]` on an empty list. A further pull would raise `IndexError` (`DeadlineThenPullRaises`). `listen` never makes that pull.
- **Module name.** `cli.py` imports the chat helpers as `voicebots.chat_utils`; the file is `utils.py`, modelled as module `ChatUtils`.

## Model

| member | source | states |
|---|---|---|
| TextUtils.NormalizeText | voicebots/text_utils.py:5-7 | the normalised text has no outer whitespace, no upper-case letter, and is no longer than the input |
| TextUtils.NormalizeIdempotent | voicebots/text_utils.py:5-7 | normalising twice is normalising once |
| TextUtils.NormalizeExitCommand | voicebots/text_utils.py:7 | " Exit " normalises to "exit" |
| TextUtils.HashRespectsNormalization | voicebots/text_utils.py:20-24 | with normalisation on, texts with equal normalisations hash equally, whatever the digest function |
| TextUtils.HashOfNormalized | voicebots/text_utils.py:20-24 | hashing with normalisation is hashing the normalised text without it, and normalised text hashes the same either way |
| TextUtils.HashNormalizedText | voicebots/text_utils.py:20-24 | without normalisation the digest is of the text's UTF-8 encoding; with it, of the encoding of a trimmed, lower-case text no longer than the input |
| ByteStrings.Utf8Encode | voicebots/text_utils.py:23 | the UTF-8 encoding has between one and four bytes per character |
| ByteStrings.EncodeChar | voicebots/text_utils.py:23 | one byte exactly for ASCII characters, equal to the code point; at most four otherwise |
| GoogleTranscriber.IsSupportedCommand | voicebots/asr/google_transcriber.py:107-108 | a text is a supported command only through a phrase that is trimmed, lower-case and no longer than the text |
| GoogleTranscriber.SupportedCommandNormalised | voicebots/asr/google_transcriber.py:107-108 | a text is a supported command exactly when its normalised form is, so padding and case do not matter |
| GoogleTranscriber.Step | voicebots/asr/google_transcriber.py:135-184 | a final decoder ignores responses; a step without an event changes no variable; each event is well formed, and its final flag is the decoder's new flag; a deadline-exceeded event comes only when no transcript was seen |
| GoogleTranscriber.Resume | voicebots/asr/google_transcriber.py:131-184 | one `next()` consumes responses until an event; it raises IndexError exactly when resumed right after the deadline event, and the generator suspends there only after yielding a final event; yielded events are well formed |
| GoogleTranscriber.TranscriptionStream.constructor | voicebots/asr/google_transcriber.py:131-134 | a new generator has all responses pending, no transcript, nothing printed, and is not final |
| GoogleTranscriber.TranscriptionStream.Next | voicebots/asr/google_transcriber.py:135-184 | the loop with its early returns computes exactly `Resume` on the generator's state |
| GoogleTranscriber.TranscriptionStream.Handle | voicebots/asr/google_transcriber.py:137-184 | one response while not final moves the decoder variables and gives the event exactly as `Step` does, and marks the generator as suspended at the deadline `yield` exactly when that is where it yielded |
| GoogleTranscriber.GoogleTranscriber.constructor | voicebots/asr/google_transcriber.py:52-68 | missing supported phrases become the empty list; single-utterance is kept |
| GoogleTranscriber.GoogleTranscriber.Listen | voicebots/asr/google_transcriber.py:84-104 | the `while not is_final` loop yields `ListenFrom` of the fresh generator: only the last event can be final, it is final exactly when listening ended at a final event, and every event is well formed |
| GoogleTranscriber.QuietResponseIsSkipped | voicebots/asr/google_transcriber.py:137-151 | a response without results, without end of utterance and within the deadline yields nothing and changes nothing |
| GoogleTranscriber.NoResultEndsDecoding | voicebots/asr/google_transcriber.py:138-149 | end of utterance, or elapsed time strictly over the deadline, yields one final event with the last transcript; the deadline is exceeded exactly when no transcript was seen |
| GoogleTranscriber.OnlyFirstResultCounts | voicebots/asr/google_transcriber.py:153-156 | results after the first have no effect |
| GoogleTranscriber.NoAlternativesIgnored | voicebots/asr/google_transcriber.py:156-158 | a first result without alternatives yields nothing and changes nothing |
| GoogleTranscriber.InterimResult | voicebots/asr/google_transcriber.py:163-178 | an interim event carries the text, max(0, printed - length) spaces of padding and no exceeded deadline; the printed length becomes the text's length; the event is final exactly when the normalised text is a supported phrase |
| GoogleTranscriber.ProviderFinalResult | voicebots/asr/google_transcriber.py:180-184 | a final result yields a final event with its text and resets the printed length to 0 |
| GoogleTranscriber.OverwriteExamples | voicebots/asr/google_transcriber.py:169-171 | "hel" then "hello" pads with nothing; "hello" then "hi" pads with three spaces |
| GoogleTranscriber.EarlyExitOnSupportedPhrase | voicebots/asr/google_transcriber.py:173-178 | the interim text " Exit " with supported phrase "exit" yields a final event at once |
| GoogleTranscriber.CapitalisedPhraseNeverMatches | voicebots/asr/google_transcriber.py:107-108 | no text matches the supported phrase "Exit" |
| GoogleTranscriber.NothingAfterFinal | voicebots/asr/google_transcriber.py:135-136 | once final, the generator reads the remaining responses and yields nothing more |
| GoogleTranscriber.ListenShape | voicebots/asr/google_transcriber.py:100-104 | `listen` yields non-final events, then at most one final event as the last one; if it stopped at a final event, it yielded something |
| GoogleTranscriber.ListenWellFormed | voicebots/asr/google_transcriber.py:142-149 | every event `listen` yields has no text exactly when its deadline was exceeded, and then it is final |
| GoogleTranscriber.ListenIsPrefixOfStream | voicebots/asr/google_transcriber.py:100-104 | what `listen` yields is a prefix of everything the generator would yield, and all of it when the responses ran out first |
| GoogleTranscriber.SilenceEndsAtDeadline | voicebots/asr/google_transcriber.py:137-149 | quiet responses followed by one that times out give exactly one final event, with the last transcript seen |
| GoogleTranscriber.SilenceFromStart | voicebots/asr/google_transcriber.py:131-149 | with no speech at all, `listen` yields one final event without text and with the deadline exceeded |
| GoogleTranscriber.DeadlineThenPullRaises | voicebots/asr/google_transcriber.py:144-156 | after the deadline event one more pull raises IndexError, while `listen` stops at that event |
| Microphone.DrainRound | voicebots/microphone.py:74-92 | a round consumes at least one item; it yields exactly when the queue holds no sentinel, and then it yields all the queued audio in order; otherwise it stops at the first sentinel |
| Microphone.FirstSentinel | voicebots/microphone.py:78-87 | the index of the first sentinel, with frames before it |
| Microphone.AudioAppend | voicebots/microphone.py:92 | the audio of two runs of queue items is the audio of the first, then of the second |
| Microphone.FrameQueue.constructor | voicebots/microphone.py:35 | a new queue is empty and has no history |
| Microphone.FrameQueue.Put | voicebots/microphone.py:69 | the item goes to the back of the queue, and into the history of puts |
| Microphone.FrameQueue.Get | voicebots/microphone.py:77 | the front item is taken off and recorded as taken |
| Microphone.FrameQueue.GetNowait | voicebots/microphone.py:85-90 | an empty queue gives `queue.Empty` and is unchanged; otherwise the front item is taken |
| Microphone.FrameQueue.Round | voicebots/microphone.py:77-92 | the blocking get and the drain loop yield `DrainRound` of the queue and take exactly its consumed items off the front |
| Microphone.MicrophoneStream.constructor | voicebots/microphone.py:24-36 | a new stream is closed, has no device and an empty queue |
| Microphone.MicrophoneStream.OpenStream | voicebots/microphone.py:38-55 | the stream is open and has a device; the queue is unchanged |
| Microphone.MicrophoneStream.CloseStream | voicebots/microphone.py:57-65 | an opened stream becomes closed and gets one sentinel behind every queued frame; before an open, AttributeError and no change |
| Microphone.MicrophoneStream.FillBuffer | voicebots/microphone.py:67-70 | the frame goes to the back of the queue, nothing else changes, and the result is (None, paContinue) |
| Microphone.MicrophoneStream.Generator | voicebots/microphone.py:72 | creating the generator takes nothing from the queue |
| Microphone.ChunkGenerator.constructor | voicebots/microphone.py:72 | a new generator has taken and yielded nothing |
| Microphone.ChunkGenerator.Next | voicebots/microphone.py:72-92 | a closed stream or a finished generator yields nothing and takes nothing; otherwise a pull yields `DrainRound` of the queue and ends the generator when that round met a sentinel |
| Microphone.YieldedIsPrefixOfPushed | voicebots/microphone.py:72-92 | the yielded chunks, joined, are an in-order prefix of the audio put from the first frame the generator could take, frames already queued when it was created included |
| Microphone.NothingBeforeOpen | voicebots/microphone.py:72-73 | a stream that was never opened yields nothing, even with a frame queued |
| Microphone.QueuedFramesCoalesce | voicebots/microphone.py:77-92 | two frames queued between pulls come out as one chunk, in order |
| Microphone.CloseDropsQueuedFrames | voicebots/microphone.py:61-73 | a frame still queued at close is not yielded |
| Microphone.SentinelDropsDrainedFrames | voicebots/microphone.py:83-87 | a sentinel met while draining ends the generator without yielding the frame drained before it |
| PyDict.SetItem | cli.py:47 | `d[key] = value`: keys stay distinct, the key maps to the value, every other key keeps its value, a present key keeps its place and a new key goes at the end |
| Cli.GetPromptConfig | cli.py:38-49 | the copy has distinct keys, "stop" is the newline and the two speaker prompts, every other key is as in `PROMPT_CONFIG`, and the first items are `PROMPT_CONFIG` itself |
| Cli.PromptConfigValues | cli.py:31-36 | the configuration's model, max_tokens and logit_bias are those of `PROMPT_CONFIG`, and it has no suffix |
| Cli.CleanText | cli.py:54-56 | the cleaned text has no '!', no '?' and no upper-case letter |
| Cli.UserDesiresCallEnd | cli.py:52-70 | the loop with early returns answers exactly `DesiresCallEnd`: a direct command, or an end-of-call phrase contained in the cleaned text |
| Cli.PhraseSurvivesCleaning | cli.py:54-56 | a phrase without outer spaces and without '.', '?' or '!' that the lower-cased text contains is contained in the cleaned text |
| Cli.EndPhraseEndsCall | cli.py:62-69 | any text containing an end-of-call phrase, in any case, ends the call |
| Cli.NoPhraseNoEnd | cli.py:58-70 | if the cleaned text is not a direct command and contains no end-of-call phrase, the call goes on |
| Cli.CleanKeepsPhrase | cli.py:55 | the deletions and the '!' replacement work around a phrase free of those characters |
| Cli.StripKeepsPhrase | cli.py:55 | stripping keeps a phrase that has no space at either end |
| Cli.ExclaimedExitDoesNotEnd | cli.py:54-60 | "exit!" cleans to "exit." and does not end the call |
| Cli.ExclaimedGoodbyeEnds | cli.py:54-69 | "Goodbye!" ends the call |
| Cli.PaddedExitEnds | cli.py:54-60 | " Exit. " cleans to "exit" and ends the call |
| ChatUtils.Lines | utils.py:132-135 | one line per turn, the line of each turn at its index |
| ChatUtils.BuildTranscript | utils.py:131-136 | the loop that collects the lines returns `Transcript`: the turn lines joined by newlines |
| ChatUtils.TurnLineOneLine | utils.py:134-135 | a turn line has no newline unless the speaker's name has one |
| ChatUtils.TurnLineShape | utils.py:134-135 | a line is the capitalised speaker and ": ", then a text without newline or outer whitespace |
| ChatUtils.EmptyTranscript | utils.py:131-136 | no turns give the empty transcript |
| ChatUtils.TranscriptSplitsIntoLines | utils.py:131-136 | when no speaker name has a newline, the transcript splits back into exactly the turn lines, one per turn, in order |
| ChatUtils.GetPromptText | utils.py:159-183 | no separator fails the unpacking with one message and several separators with another; otherwise the opening line is trimmed, and the prompt is the text after the separator minus trailing whitespace only, containing no separator |
| ChatUtils.OpeningLineOf | utils.py:178-180 | without placeholders, the part before the separator is a run of label characters, whitespace, the opening line, and whitespace, and the run of label characters is as long as it can be |
| ChatUtils.PromptTextOfParts | utils.py:178-183 | a file with one separator and no other '#' gives the stripped, label-stripped first part and the right-stripped second part |
| ChatUtils.OpeningLineLosesLabelLetters | utils.py:180 | "one day######Hi" gives the opening line "day": the label is stripped as a set of characters, not as a prefix |
| ChatUtils.MakeChatId | utils.py:66-71 | the id is the chat name, "_", then the uuid's first eight characters (all of a shorter uuid) |
| ChatUtils.ChatIdDeterminesName | utils.py:71 | with full-length uuids, equal ids have equal chat names and equal uuid prefixes |
| OaiClient.SortItems | oai_client.py:74 | `sorted(params.items())` is in strictly ascending key order and a permutation of the items |
| OaiClient.InsertSorted | oai_client.py:74 | inserting into a sorted list keeps it sorted and adds exactly that item |
| OaiClient.SortedUnique | oai_client.py:74 | two strictly sorted lists with the same items are equal |
| OaiClient.Pairs | oai_client.py:74 | one `k=v` string per item, in order |
| OaiClient.CacheKey | oai_client.py:63-75 | the key starts with "completion:" |
| OaiClient.KeyOfSortedItems | oai_client.py:73-75 | the key is "completion:" then the `k=v` strings of the items in ascending key order, joined by ":" |
| OaiClient.CacheKeyOrderIndependent | oai_client.py:73-75 | the key does not depend on the order in which the parameters were inserted |
| OaiClient.KeyOfPair | oai_client.py:73-75 | two parameters, in either insertion order, give one key: "completion:", the smaller key's `k=v`, ":", then the larger key's `k=v` |
| OaiClient.ChoiceTexts | oai_client.py:45 | the texts of the choices, in order |
| OaiClient.PostprocessCompletionResponse | oai_client.py:36-49 | IndexError exactly when there are no choices; otherwise the top answer is the first choice's text, all answers are the choice texts in order, and the tokens, usage and latency come from the response |
| OaiClient.InsertSplit | oai_client.py:168-173 | ValueError with the source's message unless the lower-cased prompt has the token exactly once; otherwise the prompt is the text before, the token in some case, and the text after, neither of which contains the token |
| OaiClient.InsertSplitOfParts | oai_client.py:168-173 | a prompt whose lower-cased form is the token between two texts without '[' splits into the original-case text before and after the token |
| OaiClient.InsertSplitExample | oai_client.py:168-173 | "A[INSERT]B" splits into "A" and "B" |
| OaiClient.RequestParams | oai_client.py:175-189 | the thirteen parameters in order with distinct keys; the prompt, suffix, model and stop are as given, and a missing logit_bias becomes {} |
| OaiClient.Request | oai_client.py:167-189 | outside insert mode the prompt is sent as is with no suffix; in insert mode the split's failure is the request's failure, and otherwise its two parts are the prompt and suffix |
| OaiClient.CompleteWithCache | oai_client.py:97-116 | the API is called exactly when there is no cache or the key is missing; a hit returns the stored response and leaves the cache as it was; a miss returns the API's response and stores it when there is a cache |
| OaiClient.SecondCallHits | oai_client.py:101-116 | with a cache, an identical second call hits: same response, no API call, no change |
| OaiClient.NoCacheAlwaysCalls | oai_client.py:101-116 | without a cache every call goes to the API and nothing is stored |
| OaiClient.MissStoresOnlyThatKey | oai_client.py:109-116 | a miss stores the response under its key and leaves every other key as it was |
| OaiClient.OAIClient.constructor | oai_client.py:53-61 | the client keeps the key, the organisation and the cache, and has made no API call |
| OaiClient.OAIClient.GetCacheKey | oai_client.py:63-75 | the client's cache key starts with "completion:" |
| OaiClient.OAIClient.CompleteWithCacheCall | oai_client.py:85-116 | the method returns and stores what `CompleteWithCache` says, and records an API call exactly on a miss |
| OaiClient.OAIClient.Complete | oai_client.py:132-203 | a bad insert prompt raises ValueError before any cache or API use; otherwise the request goes through the cache and the post-processed result carries the request parameters and tag |

## Left out

- The Google Cloud Speech client is not modelled, nor the recogniser configuration it is given (`SpeechClient`, `streaming_recognize`, `StreamingRecognitionConfig`, `_get_speech_contexts`, and the `RATE` and `CHUNK` settings it and the microphone are opened with): these are network and device calls. `Listen` takes the responses directly.
- `GoogleTranscriber.GoogleTranscriber.Listen` does not open a `MicrophoneStream` or send audio. The microphone model stands alone.
- A blocking `get()` on an empty queue waits for the driver thread. `ChunkGenerator.Next` and `FrameQueue.Round` instead require a non-empty queue while the stream is open.
- The threads of the driver callback and the consumer are not modelled. They become `FillBuffer` calls interleaved with pulls.
- The pyaudio device is not modelled: opening, stopping, closing and terminating it are taken to succeed, and `hasDevice` stands for `_audio_stream` being set.
- `FillBuffer` drops `time_info` and ignores `frame_count` and `status_flags`, which the callback does not use.
- `time.time()` is replaced by the elapsed seconds that each response carries.
- `display_live_transcription` and all logging are console output.
- `Transcript.dict()` and the `Transcriber` base class hold no logic to model.
- `hash_normalized_text` uses SHA-256 and `hexdigest`, given as a function parameter.
- Whitespace and case mapping cover ASCII only. Python's Unicode tables are not modelled.
- `_completion_api_call` times the call and rounds the latency, which is floating-point clock work; the latency is a field of the response. The call and the `tenacity` retries are the client's `api` function.
- `diskcache` persistence and the `tag` passed to `cache.set` are left out; the cache is an in-memory map.
- The `openai.organization` and `openai.api_key` module globals are fields of the client instead.
- `OaiClient.CacheKey`: `str(v)` of a parameter value is the `render` function parameter, so the key is exact only up to that rendering. Python's `sorted` compares (key, value) tuples, but with distinct keys only the keys decide the order.
- The float values `0.7` and `temperature` are kept as their literals or as opaque values; no float arithmetic is done on them.
- `get_prompt_config` prints the parameters; that print is console output.
- `get_prompt_text` reads a file; the file's contents are a parameter.
- `str.format` in `get_prompt_text` is the function parameter `format`. The lemmas about it use a template without placeholders.
- `make_chat_id` calls `uuid.uuid1()`; the uuid string is a parameter.
- Missing `speaker` or `text` keys in a turn dict (a `KeyError`) are ruled out: a turn is a record with both fields.
- `chat_prompt` is a wrapper around the completion call, and not modelled.
- `handle_end_chat` and `get_line` refer to the undefined `LINES_TEXT`.
- Not modelled, as console and file I/O: `save_turns`, `load_turns`, `get_write_text_fn`, `init_prompt_session`, the styles and the completer.
- Not modelled, as user-interface code: the interactive `chat` loop, `speak_text` and `_get_transcriber` in `cli.py`.
- Not modelled, as audio playback, speech synthesis, configuration loading and examples: `voicebots/audio_utils.py`, `voicebots/speech/google_speech.py`, `settings.py` and `examples/`.
