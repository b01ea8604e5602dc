/** The logarithm and antilogarithm tables of GF(256) built on the primitive
 *  polynomial x^8 + x^4 + x^3 + x^2 + 1 (0x11D), which QR code Reed-Solomon
 *  coding uses (ISO/IEC 18004:2015 section 7.5.2).
 *
 *  The entries are those of the decoder's two constant byte arrays. Each table
 *  is written as a balanced decision tree on its index instead of a sequence
 *  display, so that a property of every entry is settled by case analysis on
 *  the index rather than by unfolding hundreds of sequence elements. */
module GaloisTables {

  /** ExpToInt(i) is alpha^i. The table has 511 entries and its second half
   *  repeats the first, so a sum of two logarithms indexes it directly. */
  function ExpToInt(i: int): (r: int)
    requires 0 <= i < 511
    ensures 0 < r < 256
  {
    if i < 255 then
      if i < 127 then
        if i < 63 then
          if i < 31 then
            if i < 15 then
              if i < 7 then
                if i < 3 then
                  (if i < 1 then 1 else (if i < 2 then 2 else 4))
                else
                  (if i < 5 then (if i < 4 then 8 else 16) else (if i < 6 then 32 else 64))
              else
                if i < 11 then
                  (if i < 9 then (if i < 8 then 128 else 29) else (if i < 10 then 58 else 116))
                else
                  (if i < 13 then (if i < 12 then 232 else 205) else (if i < 14 then 135 else 19))
            else
              if i < 23 then
                if i < 19 then
                  (if i < 17 then (if i < 16 then 38 else 76) else (if i < 18 then 152 else 45))
                else
                  (if i < 21 then (if i < 20 then 90 else 180) else (if i < 22 then 117 else 234))
              else
                if i < 27 then
                  (if i < 25 then (if i < 24 then 201 else 143) else (if i < 26 then 3 else 6))
                else
                  (if i < 29 then (if i < 28 then 12 else 24) else (if i < 30 then 48 else 96))
          else
            if i < 47 then
              if i < 39 then
                if i < 35 then
                  (if i < 33 then (if i < 32 then 192 else 157) else (if i < 34 then 39 else 78))
                else
                  (if i < 37 then (if i < 36 then 156 else 37) else (if i < 38 then 74 else 148))
              else
                if i < 43 then
                  (if i < 41 then (if i < 40 then 53 else 106) else (if i < 42 then 212 else 181))
                else
                  (if i < 45 then (if i < 44 then 119 else 238) else (if i < 46 then 193 else 159))
            else
              if i < 55 then
                if i < 51 then
                  (if i < 49 then (if i < 48 then 35 else 70) else (if i < 50 then 140 else 5))
                else
                  (if i < 53 then (if i < 52 then 10 else 20) else (if i < 54 then 40 else 80))
              else
                if i < 59 then
                  (if i < 57 then (if i < 56 then 160 else 93) else (if i < 58 then 186 else 105))
                else
                  (if i < 61 then (if i < 60 then 210 else 185) else (if i < 62 then 111 else 222))
        else
          if i < 95 then
            if i < 79 then
              if i < 71 then
                if i < 67 then
                  (if i < 65 then (if i < 64 then 161 else 95) else (if i < 66 then 190 else 97))
                else
                  (if i < 69 then (if i < 68 then 194 else 153) else (if i < 70 then 47 else 94))
              else
                if i < 75 then
                  (if i < 73 then (if i < 72 then 188 else 101) else (if i < 74 then 202 else 137))
                else
                  (if i < 77 then (if i < 76 then 15 else 30) else (if i < 78 then 60 else 120))
            else
              if i < 87 then
                if i < 83 then
                  (if i < 81 then (if i < 80 then 240 else 253) else (if i < 82 then 231 else 211))
                else
                  (if i < 85 then (if i < 84 then 187 else 107) else (if i < 86 then 214 else 177))
              else
                if i < 91 then
                  (if i < 89 then (if i < 88 then 127 else 254) else (if i < 90 then 225 else 223))
                else
                  (if i < 93 then (if i < 92 then 163 else 91) else (if i < 94 then 182 else 113))
          else
            if i < 111 then
              if i < 103 then
                if i < 99 then
                  (if i < 97 then (if i < 96 then 226 else 217) else (if i < 98 then 175 else 67))
                else
                  (if i < 101 then (if i < 100 then 134 else 17) else (if i < 102 then 34 else 68))
              else
                if i < 107 then
                  (if i < 105 then (if i < 104 then 136 else 13) else (if i < 106 then 26 else 52))
                else
                  (if i < 109 then (if i < 108 then 104 else 208) else (if i < 110 then 189 else 103))
            else
              if i < 119 then
                if i < 115 then
                  (if i < 113 then (if i < 112 then 206 else 129) else (if i < 114 then 31 else 62))
                else
                  (if i < 117 then (if i < 116 then 124 else 248) else (if i < 118 then 237 else 199))
              else
                if i < 123 then
                  (if i < 121 then (if i < 120 then 147 else 59) else (if i < 122 then 118 else 236))
                else
                  (if i < 125 then (if i < 124 then 197 else 151) else (if i < 126 then 51 else 102))
      else
        if i < 191 then
          if i < 159 then
            if i < 143 then
              if i < 135 then
                if i < 131 then
                  (if i < 129 then (if i < 128 then 204 else 133) else (if i < 130 then 23 else 46))
                else
                  (if i < 133 then (if i < 132 then 92 else 184) else (if i < 134 then 109 else 218))
              else
                if i < 139 then
                  (if i < 137 then (if i < 136 then 169 else 79) else (if i < 138 then 158 else 33))
                else
                  (if i < 141 then (if i < 140 then 66 else 132) else (if i < 142 then 21 else 42))
            else
              if i < 151 then
                if i < 147 then
                  (if i < 145 then (if i < 144 then 84 else 168) else (if i < 146 then 77 else 154))
                else
                  (if i < 149 then (if i < 148 then 41 else 82) else (if i < 150 then 164 else 85))
              else
                if i < 155 then
                  (if i < 153 then (if i < 152 then 170 else 73) else (if i < 154 then 146 else 57))
                else
                  (if i < 157 then (if i < 156 then 114 else 228) else (if i < 158 then 213 else 183))
          else
            if i < 175 then
              if i < 167 then
                if i < 163 then
                  (if i < 161 then (if i < 160 then 115 else 230) else (if i < 162 then 209 else 191))
                else
                  (if i < 165 then (if i < 164 then 99 else 198) else (if i < 166 then 145 else 63))
              else
                if i < 171 then
                  (if i < 169 then (if i < 168 then 126 else 252) else (if i < 170 then 229 else 215))
                else
                  (if i < 173 then (if i < 172 then 179 else 123) else (if i < 174 then 246 else 241))
            else
              if i < 183 then
                if i < 179 then
                  (if i < 177 then (if i < 176 then 255 else 227) else (if i < 178 then 219 else 171))
                else
                  (if i < 181 then (if i < 180 then 75 else 150) else (if i < 182 then 49 else 98))
              else
                if i < 187 then
                  (if i < 185 then (if i < 184 then 196 else 149) else (if i < 186 then 55 else 110))
                else
                  (if i < 189 then (if i < 188 then 220 else 165) else (if i < 190 then 87 else 174))
        else
          if i < 223 then
            if i < 207 then
              if i < 199 then
                if i < 195 then
                  (if i < 193 then (if i < 192 then 65 else 130) else (if i < 194 then 25 else 50))
                else
                  (if i < 197 then (if i < 196 then 100 else 200) else (if i < 198 then 141 else 7))
              else
                if i < 203 then
                  (if i < 201 then (if i < 200 then 14 else 28) else (if i < 202 then 56 else 112))
                else
                  (if i < 205 then (if i < 204 then 224 else 221) else (if i < 206 then 167 else 83))
            else
              if i < 215 then
                if i < 211 then
                  (if i < 209 then (if i < 208 then 166 else 81) else (if i < 210 then 162 else 89))
                else
                  (if i < 213 then (if i < 212 then 178 else 121) else (if i < 214 then 242 else 249))
              else
                if i < 219 then
                  (if i < 217 then (if i < 216 then 239 else 195) else (if i < 218 then 155 else 43))
                else
                  (if i < 221 then (if i < 220 then 86 else 172) else (if i < 222 then 69 else 138))
          else
            if i < 239 then
              if i < 231 then
                if i < 227 then
                  (if i < 225 then (if i < 224 then 9 else 18) else (if i < 226 then 36 else 72))
                else
                  (if i < 229 then (if i < 228 then 144 else 61) else (if i < 230 then 122 else 244))
              else
                if i < 235 then
                  (if i < 233 then (if i < 232 then 245 else 247) else (if i < 234 then 243 else 251))
                else
                  (if i < 237 then (if i < 236 then 235 else 203) else (if i < 238 then 139 else 11))
            else
              if i < 247 then
                if i < 243 then
                  (if i < 241 then (if i < 240 then 22 else 44) else (if i < 242 then 88 else 176))
                else
                  (if i < 245 then (if i < 244 then 125 else 250) else (if i < 246 then 233 else 207))
              else
                if i < 251 then
                  (if i < 249 then (if i < 248 then 131 else 27) else (if i < 250 then 54 else 108))
                else
                  (if i < 253 then (if i < 252 then 216 else 173) else (if i < 254 then 71 else 142))
    else
      if i < 383 then
        if i < 319 then
          if i < 287 then
            if i < 271 then
              if i < 263 then
                if i < 259 then
                  (if i < 257 then (if i < 256 then 1 else 2) else (if i < 258 then 4 else 8))
                else
                  (if i < 261 then (if i < 260 then 16 else 32) else (if i < 262 then 64 else 128))
              else
                if i < 267 then
                  (if i < 265 then (if i < 264 then 29 else 58) else (if i < 266 then 116 else 232))
                else
                  (if i < 269 then (if i < 268 then 205 else 135) else (if i < 270 then 19 else 38))
            else
              if i < 279 then
                if i < 275 then
                  (if i < 273 then (if i < 272 then 76 else 152) else (if i < 274 then 45 else 90))
                else
                  (if i < 277 then (if i < 276 then 180 else 117) else (if i < 278 then 234 else 201))
              else
                if i < 283 then
                  (if i < 281 then (if i < 280 then 143 else 3) else (if i < 282 then 6 else 12))
                else
                  (if i < 285 then (if i < 284 then 24 else 48) else (if i < 286 then 96 else 192))
          else
            if i < 303 then
              if i < 295 then
                if i < 291 then
                  (if i < 289 then (if i < 288 then 157 else 39) else (if i < 290 then 78 else 156))
                else
                  (if i < 293 then (if i < 292 then 37 else 74) else (if i < 294 then 148 else 53))
              else
                if i < 299 then
                  (if i < 297 then (if i < 296 then 106 else 212) else (if i < 298 then 181 else 119))
                else
                  (if i < 301 then (if i < 300 then 238 else 193) else (if i < 302 then 159 else 35))
            else
              if i < 311 then
                if i < 307 then
                  (if i < 305 then (if i < 304 then 70 else 140) else (if i < 306 then 5 else 10))
                else
                  (if i < 309 then (if i < 308 then 20 else 40) else (if i < 310 then 80 else 160))
              else
                if i < 315 then
                  (if i < 313 then (if i < 312 then 93 else 186) else (if i < 314 then 105 else 210))
                else
                  (if i < 317 then (if i < 316 then 185 else 111) else (if i < 318 then 222 else 161))
        else
          if i < 351 then
            if i < 335 then
              if i < 327 then
                if i < 323 then
                  (if i < 321 then (if i < 320 then 95 else 190) else (if i < 322 then 97 else 194))
                else
                  (if i < 325 then (if i < 324 then 153 else 47) else (if i < 326 then 94 else 188))
              else
                if i < 331 then
                  (if i < 329 then (if i < 328 then 101 else 202) else (if i < 330 then 137 else 15))
                else
                  (if i < 333 then (if i < 332 then 30 else 60) else (if i < 334 then 120 else 240))
            else
              if i < 343 then
                if i < 339 then
                  (if i < 337 then (if i < 336 then 253 else 231) else (if i < 338 then 211 else 187))
                else
                  (if i < 341 then (if i < 340 then 107 else 214) else (if i < 342 then 177 else 127))
              else
                if i < 347 then
                  (if i < 345 then (if i < 344 then 254 else 225) else (if i < 346 then 223 else 163))
                else
                  (if i < 349 then (if i < 348 then 91 else 182) else (if i < 350 then 113 else 226))
          else
            if i < 367 then
              if i < 359 then
                if i < 355 then
                  (if i < 353 then (if i < 352 then 217 else 175) else (if i < 354 then 67 else 134))
                else
                  (if i < 357 then (if i < 356 then 17 else 34) else (if i < 358 then 68 else 136))
              else
                if i < 363 then
                  (if i < 361 then (if i < 360 then 13 else 26) else (if i < 362 then 52 else 104))
                else
                  (if i < 365 then (if i < 364 then 208 else 189) else (if i < 366 then 103 else 206))
            else
              if i < 375 then
                if i < 371 then
                  (if i < 369 then (if i < 368 then 129 else 31) else (if i < 370 then 62 else 124))
                else
                  (if i < 373 then (if i < 372 then 248 else 237) else (if i < 374 then 199 else 147))
              else
                if i < 379 then
                  (if i < 377 then (if i < 376 then 59 else 118) else (if i < 378 then 236 else 197))
                else
                  (if i < 381 then (if i < 380 then 151 else 51) else (if i < 382 then 102 else 204))
      else
        if i < 447 then
          if i < 415 then
            if i < 399 then
              if i < 391 then
                if i < 387 then
                  (if i < 385 then (if i < 384 then 133 else 23) else (if i < 386 then 46 else 92))
                else
                  (if i < 389 then (if i < 388 then 184 else 109) else (if i < 390 then 218 else 169))
              else
                if i < 395 then
                  (if i < 393 then (if i < 392 then 79 else 158) else (if i < 394 then 33 else 66))
                else
                  (if i < 397 then (if i < 396 then 132 else 21) else (if i < 398 then 42 else 84))
            else
              if i < 407 then
                if i < 403 then
                  (if i < 401 then (if i < 400 then 168 else 77) else (if i < 402 then 154 else 41))
                else
                  (if i < 405 then (if i < 404 then 82 else 164) else (if i < 406 then 85 else 170))
              else
                if i < 411 then
                  (if i < 409 then (if i < 408 then 73 else 146) else (if i < 410 then 57 else 114))
                else
                  (if i < 413 then (if i < 412 then 228 else 213) else (if i < 414 then 183 else 115))
          else
            if i < 431 then
              if i < 423 then
                if i < 419 then
                  (if i < 417 then (if i < 416 then 230 else 209) else (if i < 418 then 191 else 99))
                else
                  (if i < 421 then (if i < 420 then 198 else 145) else (if i < 422 then 63 else 126))
              else
                if i < 427 then
                  (if i < 425 then (if i < 424 then 252 else 229) else (if i < 426 then 215 else 179))
                else
                  (if i < 429 then (if i < 428 then 123 else 246) else (if i < 430 then 241 else 255))
            else
              if i < 439 then
                if i < 435 then
                  (if i < 433 then (if i < 432 then 227 else 219) else (if i < 434 then 171 else 75))
                else
                  (if i < 437 then (if i < 436 then 150 else 49) else (if i < 438 then 98 else 196))
              else
                if i < 443 then
                  (if i < 441 then (if i < 440 then 149 else 55) else (if i < 442 then 110 else 220))
                else
                  (if i < 445 then (if i < 444 then 165 else 87) else (if i < 446 then 174 else 65))
        else
          if i < 479 then
            if i < 463 then
              if i < 455 then
                if i < 451 then
                  (if i < 449 then (if i < 448 then 130 else 25) else (if i < 450 then 50 else 100))
                else
                  (if i < 453 then (if i < 452 then 200 else 141) else (if i < 454 then 7 else 14))
              else
                if i < 459 then
                  (if i < 457 then (if i < 456 then 28 else 56) else (if i < 458 then 112 else 224))
                else
                  (if i < 461 then (if i < 460 then 221 else 167) else (if i < 462 then 83 else 166))
            else
              if i < 471 then
                if i < 467 then
                  (if i < 465 then (if i < 464 then 81 else 162) else (if i < 466 then 89 else 178))
                else
                  (if i < 469 then (if i < 468 then 121 else 242) else (if i < 470 then 249 else 239))
              else
                if i < 475 then
                  (if i < 473 then (if i < 472 then 195 else 155) else (if i < 474 then 43 else 86))
                else
                  (if i < 477 then (if i < 476 then 172 else 69) else (if i < 478 then 138 else 9))
          else
            if i < 495 then
              if i < 487 then
                if i < 483 then
                  (if i < 481 then (if i < 480 then 18 else 36) else (if i < 482 then 72 else 144))
                else
                  (if i < 485 then (if i < 484 then 61 else 122) else (if i < 486 then 244 else 245))
              else
                if i < 491 then
                  (if i < 489 then (if i < 488 then 247 else 243) else (if i < 490 then 251 else 235))
                else
                  (if i < 493 then (if i < 492 then 203 else 139) else (if i < 494 then 11 else 22))
            else
              if i < 503 then
                if i < 499 then
                  (if i < 497 then (if i < 496 then 44 else 88) else (if i < 498 then 176 else 125))
                else
                  (if i < 501 then (if i < 500 then 250 else 233) else (if i < 502 then 207 else 131))
              else
                if i < 507 then
                  (if i < 505 then (if i < 504 then 27 else 54) else (if i < 506 then 108 else 216))
                else
                  (if i < 509 then (if i < 508 then 173 else 71) else (if i < 510 then 142 else 1))
  }

  /** IntToExp(x) is the logarithm of x to base alpha, for x != 0; entry 0 is 0. */
  function IntToExp(x: int): (r: int)
    requires 0 <= x < 256
    ensures 0 <= r < 255
  {
    if x < 128 then
      if x < 64 then
        if x < 32 then
          if x < 16 then
            if x < 8 then
              if x < 4 then
                (if x < 2 then (if x < 1 then 0 else 0) else (if x < 3 then 1 else 25))
              else
                (if x < 6 then (if x < 5 then 2 else 50) else (if x < 7 then 26 else 198))
            else
              if x < 12 then
                (if x < 10 then (if x < 9 then 3 else 223) else (if x < 11 then 51 else 238))
              else
                (if x < 14 then (if x < 13 then 27 else 104) else (if x < 15 then 199 else 75))
          else
            if x < 24 then
              if x < 20 then
                (if x < 18 then (if x < 17 then 4 else 100) else (if x < 19 then 224 else 14))
              else
                (if x < 22 then (if x < 21 then 52 else 141) else (if x < 23 then 239 else 129))
            else
              if x < 28 then
                (if x < 26 then (if x < 25 then 28 else 193) else (if x < 27 then 105 else 248))
              else
                (if x < 30 then (if x < 29 then 200 else 8) else (if x < 31 then 76 else 113))
        else
          if x < 48 then
            if x < 40 then
              if x < 36 then
                (if x < 34 then (if x < 33 then 5 else 138) else (if x < 35 then 101 else 47))
              else
                (if x < 38 then (if x < 37 then 225 else 36) else (if x < 39 then 15 else 33))
            else
              if x < 44 then
                (if x < 42 then (if x < 41 then 53 else 147) else (if x < 43 then 142 else 218))
              else
                (if x < 46 then (if x < 45 then 240 else 18) else (if x < 47 then 130 else 69))
          else
            if x < 56 then
              if x < 52 then
                (if x < 50 then (if x < 49 then 29 else 181) else (if x < 51 then 194 else 125))
              else
                (if x < 54 then (if x < 53 then 106 else 39) else (if x < 55 then 249 else 185))
            else
              if x < 60 then
                (if x < 58 then (if x < 57 then 201 else 154) else (if x < 59 then 9 else 120))
              else
                (if x < 62 then (if x < 61 then 77 else 228) else (if x < 63 then 114 else 166))
      else
        if x < 96 then
          if x < 80 then
            if x < 72 then
              if x < 68 then
                (if x < 66 then (if x < 65 then 6 else 191) else (if x < 67 then 139 else 98))
              else
                (if x < 70 then (if x < 69 then 102 else 221) else (if x < 71 then 48 else 253))
            else
              if x < 76 then
                (if x < 74 then (if x < 73 then 226 else 152) else (if x < 75 then 37 else 179))
              else
                (if x < 78 then (if x < 77 then 16 else 145) else (if x < 79 then 34 else 136))
          else
            if x < 88 then
              if x < 84 then
                (if x < 82 then (if x < 81 then 54 else 208) else (if x < 83 then 148 else 206))
              else
                (if x < 86 then (if x < 85 then 143 else 150) else (if x < 87 then 219 else 189))
            else
              if x < 92 then
                (if x < 90 then (if x < 89 then 241 else 210) else (if x < 91 then 19 else 92))
              else
                (if x < 94 then (if x < 93 then 131 else 56) else (if x < 95 then 70 else 64))
        else
          if x < 112 then
            if x < 104 then
              if x < 100 then
                (if x < 98 then (if x < 97 then 30 else 66) else (if x < 99 then 182 else 163))
              else
                (if x < 102 then (if x < 101 then 195 else 72) else (if x < 103 then 126 else 110))
            else
              if x < 108 then
                (if x < 106 then (if x < 105 then 107 else 58) else (if x < 107 then 40 else 84))
              else
                (if x < 110 then (if x < 109 then 250 else 133) else (if x < 111 then 186 else 61))
          else
            if x < 120 then
              if x < 116 then
                (if x < 114 then (if x < 113 then 202 else 94) else (if x < 115 then 155 else 159))
              else
                (if x < 118 then (if x < 117 then 10 else 21) else (if x < 119 then 121 else 43))
            else
              if x < 124 then
                (if x < 122 then (if x < 121 then 78 else 212) else (if x < 123 then 229 else 172))
              else
                (if x < 126 then (if x < 125 then 115 else 243) else (if x < 127 then 167 else 87))
    else
      if x < 192 then
        if x < 160 then
          if x < 144 then
            if x < 136 then
              if x < 132 then
                (if x < 130 then (if x < 129 then 7 else 112) else (if x < 131 then 192 else 247))
              else
                (if x < 134 then (if x < 133 then 140 else 128) else (if x < 135 then 99 else 13))
            else
              if x < 140 then
                (if x < 138 then (if x < 137 then 103 else 74) else (if x < 139 then 222 else 237))
              else
                (if x < 142 then (if x < 141 then 49 else 197) else (if x < 143 then 254 else 24))
          else
            if x < 152 then
              if x < 148 then
                (if x < 146 then (if x < 145 then 227 else 165) else (if x < 147 then 153 else 119))
              else
                (if x < 150 then (if x < 149 then 38 else 184) else (if x < 151 then 180 else 124))
            else
              if x < 156 then
                (if x < 154 then (if x < 153 then 17 else 68) else (if x < 155 then 146 else 217))
              else
                (if x < 158 then (if x < 157 then 35 else 32) else (if x < 159 then 137 else 46))
        else
          if x < 176 then
            if x < 168 then
              if x < 164 then
                (if x < 162 then (if x < 161 then 55 else 63) else (if x < 163 then 209 else 91))
              else
                (if x < 166 then (if x < 165 then 149 else 188) else (if x < 167 then 207 else 205))
            else
              if x < 172 then
                (if x < 170 then (if x < 169 then 144 else 135) else (if x < 171 then 151 else 178))
              else
                (if x < 174 then (if x < 173 then 220 else 252) else (if x < 175 then 190 else 97))
          else
            if x < 184 then
              if x < 180 then
                (if x < 178 then (if x < 177 then 242 else 86) else (if x < 179 then 211 else 171))
              else
                (if x < 182 then (if x < 181 then 20 else 42) else (if x < 183 then 93 else 158))
            else
              if x < 188 then
                (if x < 186 then (if x < 185 then 132 else 60) else (if x < 187 then 57 else 83))
              else
                (if x < 190 then (if x < 189 then 71 else 109) else (if x < 191 then 65 else 162))
      else
        if x < 224 then
          if x < 208 then
            if x < 200 then
              if x < 196 then
                (if x < 194 then (if x < 193 then 31 else 45) else (if x < 195 then 67 else 216))
              else
                (if x < 198 then (if x < 197 then 183 else 123) else (if x < 199 then 164 else 118))
            else
              if x < 204 then
                (if x < 202 then (if x < 201 then 196 else 23) else (if x < 203 then 73 else 236))
              else
                (if x < 206 then (if x < 205 then 127 else 12) else (if x < 207 then 111 else 246))
          else
            if x < 216 then
              if x < 212 then
                (if x < 210 then (if x < 209 then 108 else 161) else (if x < 211 then 59 else 82))
              else
                (if x < 214 then (if x < 213 then 41 else 157) else (if x < 215 then 85 else 170))
            else
              if x < 220 then
                (if x < 218 then (if x < 217 then 251 else 96) else (if x < 219 then 134 else 177))
              else
                (if x < 222 then (if x < 221 then 187 else 204) else (if x < 223 then 62 else 90))
        else
          if x < 240 then
            if x < 232 then
              if x < 228 then
                (if x < 226 then (if x < 225 then 203 else 89) else (if x < 227 then 95 else 176))
              else
                (if x < 230 then (if x < 229 then 156 else 169) else (if x < 231 then 160 else 81))
            else
              if x < 236 then
                (if x < 234 then (if x < 233 then 11 else 245) else (if x < 235 then 22 else 235))
              else
                (if x < 238 then (if x < 237 then 122 else 117) else (if x < 239 then 44 else 215))
          else
            if x < 248 then
              if x < 244 then
                (if x < 242 then (if x < 241 then 79 else 174) else (if x < 243 then 213 else 233))
              else
                (if x < 246 then (if x < 245 then 230 else 231) else (if x < 247 then 173 else 232))
            else
              if x < 252 then
                (if x < 250 then (if x < 249 then 116 else 214) else (if x < 251 then 244 else 234))
              else
                (if x < 254 then (if x < 253 then 168 else 80) else (if x < 255 then 88 else 175))
  }

  /** Multiplication by alpha: doubling, followed by XOR with 0x11D when the
   *  doubled value reaches bit 8. That value v is even, so the XOR is written
   *  out on the bits it touches: v ^ 0x11D == v - 0x100 + 0x1D - 2 * (v & 0x1C),
   *  where v & 0x1C == v % 32 - v % 4. */
  function XTime(e: int): int
    requires 0 <= e < 256
  {
    var v := 2 * e;
    if v < 0x100 then v else v - 0x100 + 0x1D - 2 * (v % 32 - v % 4)
  }

  /** Every non-zero element is a power of alpha: the antilogarithm of its
   *  logarithm gives it back. */
  lemma LogThenExp(x: int)
    requires 0 < x < 256
    ensures ExpToInt(IntToExp(x)) == x
  {
    if x < 128 { LogThenExpLow(x); } else { LogThenExpHigh(x); }
  }

  lemma LogThenExpLow(x: int)
    requires 0 < x < 128
    ensures ExpToInt(IntToExp(x)) == x
  {
  }

  lemma LogThenExpHigh(x: int)
    requires 128 <= x < 256
    ensures ExpToInt(IntToExp(x)) == x
  {
  }

  /** The powers alpha^0 .. alpha^254 are distinct: the logarithm of alpha^k is k. */
  lemma ExpThenLog(k: int)
    requires 0 <= k < 255
    ensures IntToExp(ExpToInt(k)) == k
  {
    if k < 128 { ExpThenLogLow(k); } else { ExpThenLogHigh(k); }
  }

  lemma ExpThenLogLow(k: int)
    requires 0 <= k < 128
    ensures IntToExp(ExpToInt(k)) == k
  {
  }

  lemma ExpThenLogHigh(k: int)
    requires 128 <= k < 255
    ensures IntToExp(ExpToInt(k)) == k
  {
  }

  /** The second half of the antilogarithm table repeats the first: alpha^255 == 1. */
  lemma ExpPeriod(k: int)
    requires 255 <= k < 511
    ensures ExpToInt(k) == ExpToInt(k - 255)
  {
  }

  /** The table is generated by 0x11D: each entry is the previous one times alpha.
   *  In particular alpha^8 == 0x1D == 29. */
  lemma ExpRecurrence(k: int)
    requires 0 <= k < 510
    ensures ExpToInt(k + 1) == XTime(ExpToInt(k))
  {
    if k >= 255 {
      ExpPeriod(k + 1);
      if k > 255 { ExpPeriod(k); }
      ExpRecurrenceFirstCycle(k - 255);
    } else {
      ExpRecurrenceFirstCycle(k);
    }
  }

  lemma ExpRecurrenceFirstCycle(k: int)
    requires 0 <= k < 255
    ensures ExpToInt(k + 1) == XTime(ExpToInt(k))
  {
    if k < 128 {
      if k < 32 { ExpRecurrence0(k); }
      else if k < 64 { ExpRecurrence1(k); }
      else if k < 96 { ExpRecurrence2(k); }
      else { ExpRecurrence3(k); }
    } else {
      if k < 160 { ExpRecurrence4(k); }
      else if k < 192 { ExpRecurrence5(k); }
      else if k < 224 { ExpRecurrence6(k); }
      else { ExpRecurrence7(k); }
    }
  }

  lemma ExpRecurrence0(k: int) requires 0 <= k < 32 ensures ExpToInt(k + 1) == XTime(ExpToInt(k)) { }
  lemma ExpRecurrence1(k: int) requires 32 <= k < 64 ensures ExpToInt(k + 1) == XTime(ExpToInt(k)) { }
  lemma ExpRecurrence2(k: int) requires 64 <= k < 96 ensures ExpToInt(k + 1) == XTime(ExpToInt(k)) { }
  lemma ExpRecurrence3(k: int) requires 96 <= k < 128 ensures ExpToInt(k + 1) == XTime(ExpToInt(k)) { }
  lemma ExpRecurrence4(k: int) requires 128 <= k < 160 ensures ExpToInt(k + 1) == XTime(ExpToInt(k)) { }
  lemma ExpRecurrence5(k: int) requires 160 <= k < 192 ensures ExpToInt(k + 1) == XTime(ExpToInt(k)) { }
  lemma ExpRecurrence6(k: int) requires 192 <= k < 224 ensures ExpToInt(k + 1) == XTime(ExpToInt(k)) { }
  lemma ExpRecurrence7(k: int) requires 224 <= k < 255 ensures ExpToInt(k + 1) == XTime(ExpToInt(k)) { }
}
