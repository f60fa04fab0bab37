# VSXu loader modules, directory creation and Artiste input routing in Dafny

This project models four small pieces of VSXu and proves properties of them.

- **The JPEG-with-alpha loader module** (`JpegAlphaLoader`, class `JpegAlphaModule`).
  - A background worker decodes a colour JPEG and, optionally, a second JPEG whose first channel becomes alpha.
  - It packs the pixels into 32-bit words and reports through the integer `thread_state`: 0 idle, 1 running, 2 done, 3 consumed, -1 failed.
  - `run()` reacts to a changed filename. It joins a running worker, rejects names without the `jpg` suffix by reverting the input, and otherwise starts exactly one new worker.
  - When `run()` finds a finished result, it publishes the bitmap with its timestamp bumped by one.
  - `output()` uploads the bitmap to the texture at most once per timestamp.
  - The worker is one atomic step, `Worker`, that may run while `thread_state` is 1. `pthread_join` is that step completing inside the joining call.
- **The TGA loader module** (`TgaLoader`, class `TgaModule`).
  - `run()` reloads exactly when one of these holds: the filename changed, the one-shot reload flag is set, or one of the three cached settings (flip, mipmaps, filter) differs from its input.
  - On a reload it refreshes the caches and clears the flag, then looks at the suffix. A name without `tga` is reverted and the texture is kept.
  - Otherwise the old texture is destroyed, unless the reload was forced, and a new one is loaded with hint bit masks built from the settings.
  - The caches are refreshed even when the name is rejected. So a settings change that comes with a rejected name is never applied to the texture that is kept, and the next `run()` does not reload.
- **`create_directory`** (`FilesystemHelper`). It copies the path into a 4096-character buffer. At every separator that is neither the first character nor right after a `:` (as after a drive letter such as `C:`), it calls `mkdir` on the prefix so far, and it finishes with `mkdir` on the whole path. The model returns the list of `mkdir` arguments, in call order.
- **The Artiste application** (`ArtisteApplication`, class `Application`).
  - `app_pre_draw` drains the system command queue, oldest first. A `system.shutdown` closes the window. Each `fullscreen` command stops the desktop and is forwarded to the engine, in arrival order.
  - The key and mouse handlers send each event either to the engine or to the desktop. The engine gets it while the preview is full-window and the desktop is not in performance mode; key-down keeps alt/ctrl+F and alt/ctrl+T for the desktop.
  - The key handlers also toggle the capture and help flags.
  - `app_mouse_move` clamps the desktop's coordinates to the viewport. A coordinate equal to the viewport size is passed through unchanged.

Outside code is kept out of the model. Loaders, decoders, `mkdir`, the engine, the desktop, the profiler and the window are recorded as logs of the calls made to them, or given as parameters. `verify_filesuffix` is a function parameter.

## Model

| member | source | states |
|---|---|---|
| FilesystemHelper.CString | lib/common/include/filesystem/vsx_filesystem_helper.h:53-54 | the string `mkdir` sees in the buffer is its longest NUL-free prefix, ended by a NUL or by the end of the buffer |
| FilesystemHelper.PrefixCallsAtSeparators | lib/common/include/filesystem/vsx_filesystem_helper.h:39-55 | while the loop has scanned `path[..n]`, each call so far is the prefix ending just before a separator that is not at index 0 and not after `:`, and every such separator below `n` has given a call |
| FilesystemHelper.PrefixCallsIncreasing | lib/common/include/filesystem/vsx_filesystem_helper.h:39-55 | the calls made while scanning `path[..n]` have strictly increasing lengths |
| FilesystemHelper.MkdirCallsShape | lib/common/include/filesystem/vsx_filesystem_helper.h:39-61 | every `mkdir` argument is a prefix of the path; lengths strictly increase; the last call is the whole path; every earlier call is at a qualifying separator, and every qualifying separator gives a call |
| FilesystemHelper.MkdirSkipsRootAndDrive | lib/common/include/filesystem/vsx_filesystem_helper.h:43 | no call before the last one is on an empty prefix or on a prefix ending in `:`, so a leading separator and a separator right after any `:` (a drive letter, for one) create nothing |
| FilesystemHelper.CreateDirectory | lib/common/include/filesystem/vsx_filesystem_helper.h:34-62 | the pointer loop over the 4096-character buffer makes exactly the calls `MkdirCalls` lists, in order, for a non-empty path that fits the buffer |
| JpegAlphaLoader.PackPixel | plugins/src/texture/module_texture_load_jpeg_alpha.h:74-78 | the packed word's bytes, from least significant up, are the first, second and third colour byte and the alpha byte |
| JpegAlphaLoader.PackPixelOfBytes | plugins/src/texture/module_texture_load_jpeg_alpha.h:74-78 | every 32-bit word is the packing of its own four bytes, so packing loses nothing |
| JpegAlphaLoader.OpaquePixel | plugins/src/texture/module_texture_load_jpeg_alpha.h:102-106 | the word or-ed with `0xFF000000` is the packing with alpha `0xFF`, and its top byte is `0xFF` |
| JpegAlphaLoader.AlphaPixelsRecoverBytes | plugins/src/texture/module_texture_load_jpeg_alpha.h:72-79 | word `i` of the alpha picture unpacks to `rgb[3i]`, `rgb[3i+1]`, `rgb[3i+2]` and `alpha[3i]` |
| JpegAlphaLoader.OpaquePixelsRecoverBytes | plugins/src/texture/module_texture_load_jpeg_alpha.h:100-107 | word `i` of the opaque picture unpacks to the same colour bytes in the same order, with top byte `0xFF` |
| JpegAlphaLoader.PackWithAlpha | plugins/src/texture/module_texture_load_jpeg_alpha.h:72-79 | the alpha loop writes exactly the first `count` words as the alpha picture and leaves the rest of the buffer alone |
| JpegAlphaLoader.PackOpaque | plugins/src/texture/module_texture_load_jpeg_alpha.h:100-107 | the opaque loop writes exactly the first `count` words as the opaque picture and leaves the rest alone |
| JpegAlphaLoader.JpegAlphaModule.DeclareParams | plugins/src/texture/module_texture_load_jpeg_alpha.h:166-192 | initial state: `thread_state` 0, bitmap invalid and 0 by 0, `texture_timestamp` -1, empty filenames, no upload pending, bitmap output set once |
| JpegAlphaLoader.JpegAlphaModule.Worker | plugins/src/texture/module_texture_load_jpeg_alpha.h:16-114 | the worker ends in state 2 with a fresh buffer of twice the picture's size, whose front is the packed picture, exactly when the colour file and any named alpha file decode. Otherwise it ends in -1 with the decoder's message and the colour filename, and the bitmap is untouched |
| JpegAlphaLoader.JpegAlphaModule.JoinIfRunning | plugins/src/texture/module_texture_load_jpeg_alpha.h:204-208 | joining a running worker completes its step. On success the state is 2, the message is unchanged, and a fresh buffer holds the packed picture; the bitmap's validity, timestamp, bpp and format are kept. On failure the state is -1, the message is the decoder's text and the colour filename, and the bitmap is unchanged. Afterwards no worker runs. With no worker running, nothing changes |
| JpegAlphaLoader.JpegAlphaModule.RejectFilename | plugins/src/texture/module_texture_load_jpeg_alpha.h:210-215 | a rejected name reverts `filename_in` to `current_filename` and sets the not-a-JPG message |
| JpegAlphaLoader.JpegAlphaModule.StartWorker | plugins/src/texture/module_texture_load_jpeg_alpha.h:216-223 | an accepted name is cached with the alpha name, the message is ok, and one worker is started, so `thread_state` is 1 and exactly one worker is live |
| JpegAlphaLoader.JpegAlphaModule.AcceptOrReject | plugins/src/texture/module_texture_load_jpeg_alpha.h:210-223 | with no worker running, a name failing the `jpg` check is reverted with the error message and changes nothing else; any other name is cached with the alpha name, the message is ok and exactly one worker starts |
| JpegAlphaLoader.JpegAlphaModule.Publish | plugins/src/texture/module_texture_load_jpeg_alpha.h:225-234 | a finished result becomes a valid bitmap, with timestamp plus one, 4 bytes per pixel and `GL_RGBA`; the state becomes 3, `loading_done` is set and the bitmap output is set once more |
| JpegAlphaLoader.JpegAlphaModule.FollowFilename | plugins/src/texture/module_texture_load_jpeg_alpha.h:196-224 | a changed filename first joins any running worker, with the bitmap effects of `JoinIfRunning` (fresh buffer holding the picture on success; validity, timestamp, bpp and format kept). It then either rejects the name, keeping the cached names and starting no worker, or caches both names and starts exactly one worker. Nothing is published |
| JpegAlphaLoader.JpegAlphaModule.Run | plugins/src/texture/module_texture_load_jpeg_alpha.h:194-235 | with an unchanged filename, only a state-2 result is published (valid, timestamp plus one, state 3) and nothing else changes, so `run()` in state 3 changes nothing. With a changed filename, any running worker is joined with the bitmap effects of `JoinIfRunning`, nothing is published, and the name is rejected or a worker is started as in `FollowFilename` |
| JpegAlphaLoader.JpegAlphaModule.Output | plugins/src/texture/module_texture_load_jpeg_alpha.h:237-249 | the texture is uploaded exactly when the bitmap is valid and its timestamp differs from the last uploaded one. The timestamp is then recorded, so no upload is pending afterwards and a repeated call uploads nothing |
| JpegAlphaLoader.JpegAlphaModule.OnDelete | plugins/src/texture/module_texture_load_jpeg_alpha.h:251-259 | a running worker is joined, with the bitmap and message effects of `JoinIfRunning`. The pixel buffer is released exactly when the bitmap is valid. Only the bitmap, message, state, worker log and release flag can change |
| JpegAlphaLoader.UploadOnceScenario | plugins/src/texture/module_texture_load_jpeg_alpha.h:194-249 | a new file name, a successful worker and then eleven frames of `run()` and `output()` upload the texture exactly once |
| TgaLoader.ToU64 | plugins/src/texture/module_texture_load_tga.h:117-121 | the int-to-`uint64_t` conversion leaves values in range unchanged |
| TgaLoader.ScaledHint | plugins/src/texture/module_texture_load_tga.h:117-121 | a mask times an off setting (0) is no bits and times an on setting (1) is exactly the mask |
| TgaLoader.BitmapLoaderHint | plugins/src/texture/module_texture_load_tga.h:116-117 | the bitmap loader hint is the flip mask exactly when flip is on and 0 when it is off |
| TgaLoader.TextureHint | plugins/src/texture/module_texture_load_tga.h:119-121 | for on/off settings the texture hint is the or of the mipmaps mask and the linear mask, each present exactly when its setting is on |
| TgaLoader.TextureHintDecodes | plugins/src/texture/module_texture_load_tga.h:119-121 | with non-zero masks that share no bit, the texture hint has mipmaps bits exactly when mipmaps is on, and linear bits exactly when the filter is linear |
| TgaLoader.TgaModule.DeclareParams | plugins/src/texture/module_texture_load_tga.h:17-66 | initial state (cache initialisers and `declare_params`): empty filenames, filter input 1 and caches 0/0/1, no texture; hence no reload is needed by the defaults alone |
| TgaLoader.TgaModule.ReportLoading | plugins/src/texture/module_texture_load_tga.h:71-75 | an existing texture whose bitmap is ready sets `loading_done` and the ok message; otherwise neither changes |
| TgaLoader.TgaModule.DecideReload | plugins/src/texture/module_texture_load_tga.h:77-95 | the five comparisons find a reload due exactly when the filename differs, the reload flag is non-zero, or a setting differs from its cache |
| TgaLoader.TgaModule.Reload | plugins/src/texture/module_texture_load_tga.h:97-131 | the caches take the settings and the reload flag is cleared, even when the suffix is then rejected. A non-tga name is reverted with the error message and the texture and loader calls are untouched. Any other name becomes current; the old texture is destroyed unless the reload was forced; the new texture is loaded with the two hints and output. Afterwards no reload is needed |
| TgaLoader.TgaModule.Run | plugins/src/texture/module_texture_load_tga.h:69-132 | reloads exactly when `NeedsReload` holds; otherwise at most `loading_done` and the message change. A reload behaves as `Reload`. After any call no reload is needed, so a second `run()` with the same inputs loads nothing |
| TgaLoader.TgaModule.OnDelete | plugins/src/texture/module_texture_load_tga.h:144-148 | the texture, if there is one, is destroyed |
| TgaLoader.RejectedNameScenario | plugins/src/texture/module_texture_load_tga.h:79-109 | a fresh module given a non-tga name runs twice without ever calling the loader, and the input is reverted to the empty name |
| TgaLoader.ForcedReloadScenario | plugins/src/texture/module_texture_load_tga.h:101-130 | loading a name and then forcing a reload calls load twice, without a destroy in between; the second call is marked as a reload |
| ArtisteApplication.FullscreensMembers | programs/artiste/src/artiste_application.cpp:206-210 | a command is forwarded exactly when it is in the queue and is named `fullscreen` |
| ArtisteApplication.FullscreensAppend | programs/artiste/src/artiste_application.cpp:199-210 | forwarding keeps arrival order: filtering a longer queue appends the filter of the new part |
| ArtisteApplication.ShutdownsAppend | programs/artiste/src/artiste_application.cpp:202-205 | window closes add up over a queue that grew at the back |
| ArtisteApplication.DrainCounts | programs/artiste/src/artiste_application.cpp:199-210 | no forwarded command is a shutdown, and forwarded commands and shutdowns together never outnumber the queue |
| ArtisteApplication.KeyDownToEngineExceptions | programs/artiste/src/artiste_application.cpp:285-294 | the key-down guard differs from the shared input guard only for F and T with alt or ctrl |
| ArtisteApplication.ClampCoord | programs/artiste/src/artiste_application.cpp:374-379 | negative coordinates become 0; those past the viewport size become size - 1; the rest, including size itself, pass unchanged; for a non-empty viewport the result is within 0 .. size |
| ArtisteApplication.Application.PreDraw | programs/artiste/src/artiste_application.cpp:197-213 | the queue ends empty; exactly the `fullscreen` commands are appended to the engine's queue, in order, each with a desktop stop if there is a desktop; the window is closed once per `system.shutdown` |
| ArtisteApplication.Application.ProfilerKeys | programs/artiste/src/artiste_application.cpp:267-271 | ctrl+5 enables the profiler and ctrl+4 disables it, whether or not there is a desktop |
| ArtisteApplication.Application.CaptureKeys | programs/artiste/src/artiste_application.cpp:274-283 | ctrl+alt+shift+P toggles movie recording, zeroing the frame count when recording starts; ctrl+alt+P without shift sets the screenshot flag |
| ArtisteApplication.Application.DesktopKeys | programs/artiste/src/artiste_application.cpp:309-312 | alt+T in full-window toggles the help text; ctrl+T in full-window resets the time measurements; the desktop gets the modifiers and the negated key |
| ArtisteApplication.Application.RouteKeyDown | programs/artiste/src/artiste_application.cpp:285-312 | under the key-down guard the engine gets the negated key with the modifiers and the desktop gets nothing; otherwise the engine gets nothing and the desktop branch runs |
| ArtisteApplication.Application.KeyDown | programs/artiste/src/artiste_application.cpp:265-314 | the whole key-down handler: profiler keys always. Without a desktop nothing else changes; with one, the capture keys are handled and then the key is routed as in `RouteKeyDown` |
| ArtisteApplication.Application.KeyUp | programs/artiste/src/artiste_application.cpp:316-341 | under the shared guard the engine gets the key, not negated; otherwise the desktop gets the modifiers and the key; without a desktop nothing happens |
| ArtisteApplication.Application.MouseMove | programs/artiste/src/artiste_application.cpp:369-405 | the engine gets the coordinates as given; the desktop gets the modifiers and the clamped coordinates |
| ArtisteApplication.Application.MouseDown | programs/artiste/src/artiste_application.cpp:407-434 | the engine event carries the button as its key; otherwise the desktop gets the modifiers and the press |
| ArtisteApplication.Application.MouseUp | programs/artiste/src/artiste_application.cpp:436-462 | as `MouseDown`, for the release |
| ArtisteApplication.DrainScenario | programs/artiste/src/artiste_application.cpp:197-213 | draining a shutdown, a fullscreen and another command forwards only the fullscreen one, closes the window once, stops the desktop once and leaves nothing pending |

## Left out

- Threads.
  - The JPEG worker runs as one atomic step, and a join is that step completing.
  - The unsynchronised `thread_state` handoff, `thread_working` and the pthread attributes are not modelled.
- JPEG decoding (`CJPEGTest`) is not modelled. Its result for each file (resolution and buffer, or an error text) is a parameter.
- JpegAlphaLoader.JpegAlphaModule.Worker requires the decoder's buffers to hold three bytes per pixel of the colour picture, and the alpha buffer too. The source reads them unchecked.
- JpegAlphaLoader.JpegAlphaModule.Worker: the 32-bit `vsx_bitmap_32bt` product `size_x * size_y`, and its doubling for the allocation `new vsx_bitmap_32bt[b_c*2]`, are taken without wrap-around.
- JpegAlphaLoader.PackPixel: the source shifts in signed `int`. The model stores the unsigned 32-bit pattern and does not model a signed overflow at the alpha shift.
- The GL texture upload is recorded as the list `uploads` of uploaded bitmap timestamps. `texture->valid` and `texture_out->set` are recorded as flags.
- The `bitmap_out->set_p` calls are counted, not stored.
- Releasing the pixel buffer in `on_delete` is a flag. The other heap management (`delete cj`, `new vsx_texture`) is not modelled.
- The JPEG module's `bitm_timestamp` is left out: it is written and never read.
- The JPEG module's timestamps (`texture_timestamp`, `bitm.timestamp`, bumped by `++bitm.timestamp` and copied in `output()`) are 32-bit `int`s in the source and unbounded integers in the model. Signed overflow after 2^31 publications is not modelled, and the promise that uploads happen at most once per timestamp (strictly increasing `uploads`) relies on the timestamp never wrapping.
- `module_info`, `m_type` and the unused `time` input are left out: they carry no behaviour.
- `vsx_bitmap`'s constructor is not part of this model, so the bitmap's first timestamp is a parameter of `DeclareParams`.
- JpegAlphaLoader.JpegAlphaModule.Run does not state the message reset on a filename change after a failure. Every path then overwrites the message, so the reset cannot be observed.
- `verify_filesuffix` is not part of this model and is a function parameter. It depends only on the filename, which nothing before it in `run()` changes, so both modules ask it first.
- `vsx_texture_loader` is not part of this model.
  - Its `load` and `destroy` calls are recorded as events, and the handle `load` returns is a parameter.
  - The filesystem and the always-true threaded flag passed to `load` are not recorded.
  - Whether the texture's bitmap is `data_ready` is a parameter.
- The hint masks of `vsx_bitmap` and `vsx_texture_gl` are not part of this model, so they are parameters of `DeclareParams`.
- `uint64_t` values are integers below 2^64, with bitwise or and bitwise and defined bit by bit.
- The TGA module's reload, mipmaps and flip inputs are not set in `declare_params`. They are taken to start at 0, the integer parameter's default, which is not part of this model.
- TGA `output`, `stop` and `start` are left out: their bodies are empty. TGA `module_info` is left out: it only fills in descriptive strings and carries no behaviour.
- The TGA module's `texture_out->valid = false` in `declare_params`, and what `texture_out->set` does to that flag, are not modelled: the flag belongs to the texture parameter class, which is not part of this model. `texture_out` is modelled by the handle it holds.
- FilesystemHelper.CreateDirectory requires a non-empty path shorter than the buffer and without NUL.
  - The source has no bound check, so a longer path overflows `dir_name`.
  - An empty path makes `mkdir` read the uninitialised buffer.
  - A C string cannot hold a NUL.
- The result and the permissions of `mkdir` (`0700`), and its Windows counterpart, are not modelled. The platform's `DIRECTORY_SEPARATOR_CHAR` is a parameter.
- `file_get_size`, `file_read` and `get_files_recursive` are file I/O and are left out.
- The pointer `gui_prod_fullwindow` is modelled as the flag it points at, and `my_draw` is assumed to exist whenever the desktop does.
- The engine, the desktop, the profiler and `app_close_window` are recorded as call logs.
- A command is its name plus an uninterpreted payload.
- The float conversion of mouse coordinates is not modelled: they stay integers. This is exact for magnitudes below 2^24.
- `app_mouse_down` sets the modifiers through the static `vsx_widget::set_key_modifiers`. It is recorded like the desktop's own call.
- `app_draw`, the dual-monitor path and its frame-time floats, `app_load`, `app_unload`, `load_desktop_a`, `app_print_cli_help`, `app_char`, `app_mouse_move_passive` and `app_mousewheel` (a float wheel delta) are left out. They are rendering, lifecycle or string handling in libraries that are not part of this model, or handlers outside the modelled routing core.
